/**
 The multi-producer single-consumer ring, as a machine whose steps are the atomic
 operations and slot accesses of `push` and `pop`.

 `tickets` and `popped` record the history of the run: the value behind every
 position claimed from `tail`, and the values returned by `pop`.
 */
module Mpsc {
  import opened Bits
  import opened Common
  import opened RingIndex

  type Tid = int

  /** What `push` returns: a full ring gives the value back. */
  datatype PushResult<T> = Pushed | Rejected(v: T)

  /** A producer inside `push`, or out of it with the result of its last call. */
  datatype Producer<T> =
    | Out(ret: PushResult<T>)
    | TailLoaded(v: T, tail: nat)
    | NotFull(v: T, tail: nat)
    | Claimed(v: T, pos: nat)
    | Written(v: T, pos: nat)

  /** The consumer inside `pop`, or out of it with the result of its last call. */
  datatype Consumer<T> =
    | Idle(ret: Option<T>)
    | HeadLoaded(pos: nat)
    | Ready(pos: nat)
    | Taken(pos: nat, v: Option<T>)
    | Cleared(pos: nat, v: Option<T>)

  datatype Slot<T> = Slot(ready: nat, value: Option<T>)

  datatype State<T> = State(
    head: nat,
    tail: nat,
    slots: seq<Slot<T>>,
    producers: map<Tid, Producer<T>>,
    consumer: Consumer<T>,
    tickets: seq<T>,
    popped: seq<Option<T>>)

  datatype Label<T> =
    | Begin(t: Tid, v: T)
    | LoadHead(t: Tid)
    | Cas(t: Tid, spurious: bool)
    | WriteSlot(t: Tid)
    | StoreReady(t: Tid)
    | PopBegin
    | PopCheck
    | PopTake
    | PopClear
    | PopAdvance

  predicate Has<T>(s: State<T>, t: Tid) {
    t in s.producers && |s.slots| > 0
  }

  function SetProducer<T>(s: State<T>, t: Tid, p: Producer<T>): State<T> {
    s.(producers := s.producers[t := p])
  }

  function SlotOf<T>(s: State<T>, pos: nat): (i: nat)
    requires |s.slots| > 0
    ensures i < |s.slots|
  {
    Index(pos, |s.slots|)
  }

  /** Every step but the successful claim of the last usable position can happen at any time. */
  predicate Enabled<T(==)>(s: State<T>, l: Label<T>) {
    |s.slots| > 0 &&
    match l
    case Begin(t, v) => t in s.producers && s.producers[t].Out?
    case LoadHead(t) => t in s.producers && s.producers[t].TailLoaded?
    case Cas(t, spurious) =>
      && t in s.producers && s.producers[t].NotFull?
      && (!spurious && s.tail == s.producers[t].tail ==> s.tail < TWO_64 - 2)
    case WriteSlot(t) => t in s.producers && s.producers[t].Claimed?
    case StoreReady(t) => t in s.producers && s.producers[t].Written?
    case PopBegin => s.consumer.Idle?
    case PopCheck => s.consumer.HeadLoaded?
    case PopTake => s.consumer.Ready?
    case PopClear => s.consumer.Taken?
    case PopAdvance => s.consumer.Cleared?
  }

  /** The `full` test of `push` on the loaded `tail` and the current head. */
  predicate SeemsFull<T>(s: State<T>, tail: nat) {
    WrapSub64(tail, s.head) == |s.slots|
  }

  function DoLoadHead<T>(s: State<T>, t: Tid): State<T>
    requires t in s.producers && s.producers[t].TailLoaded?
  {
    var p := s.producers[t];
    if SeemsFull(s, p.tail) then SetProducer(s, t, Out(Rejected(p.v)))
    else SetProducer(s, t, NotFull(p.v, p.tail))
  }

  function DoCas<T>(s: State<T>, t: Tid, spurious: bool): State<T>
    requires t in s.producers && s.producers[t].NotFull?
  {
    var p := s.producers[t];
    if !spurious && s.tail == p.tail then
      SetProducer(s, t, Claimed(p.v, p.tail)).(tail := WrapAdd64(p.tail, 1), tickets := s.tickets + [p.v])
    else
      SetProducer(s, t, TailLoaded(p.v, s.tail))
  }

  function DoWriteSlot<T>(s: State<T>, t: Tid): State<T>
    requires Has(s, t) && s.producers[t].Claimed?
  {
    var p := s.producers[t];
    var i := SlotOf(s, p.pos);
    SetProducer(s, t, Written(p.v, p.pos)).(slots := s.slots[i := s.slots[i].(value := Some(p.v))])
  }

  function DoStoreReady<T>(s: State<T>, t: Tid): State<T>
    requires Has(s, t) && s.producers[t].Written?
  {
    var p := s.producers[t];
    var i := SlotOf(s, p.pos);
    SetProducer(s, t, Out(Pushed)).(slots := s.slots[i := s.slots[i].(ready := WrapAdd64(p.pos, 1))])
  }

  function DoPopCheck<T>(s: State<T>): State<T>
    requires |s.slots| > 0 && s.consumer.HeadLoaded?
  {
    var h := s.consumer.pos;
    if s.slots[SlotOf(s, h)].ready != WrapAdd64(h, 1) then s.(consumer := Idle(None)) else s.(consumer := Ready(h))
  }

  function DoPopTake<T>(s: State<T>): State<T>
    requires |s.slots| > 0 && s.consumer.Ready?
  {
    s.(consumer := Taken(s.consumer.pos, s.slots[SlotOf(s, s.consumer.pos)].value))
  }

  function DoPopClear<T>(s: State<T>): State<T>
    requires |s.slots| > 0 && s.consumer.Taken?
  {
    var i := SlotOf(s, s.consumer.pos);
    s.(consumer := Cleared(s.consumer.pos, s.consumer.v), slots := s.slots[i := s.slots[i].(ready := 0)])
  }

  function DoPopAdvance<T>(s: State<T>): State<T>
    requires s.consumer.Cleared?
  {
    s.(consumer := Idle(s.consumer.v), head := WrapAdd64(s.consumer.pos, 1), popped := s.popped + [s.consumer.v])
  }

  function Next<T>(s: State<T>, l: Label<T>): State<T>
    requires Enabled(s, l)
  {
    match l
    case Begin(t, v) => SetProducer(s, t, TailLoaded(v, s.tail))
    case LoadHead(t) => DoLoadHead(s, t)
    case Cas(t, spurious) => DoCas(s, t, spurious)
    case WriteSlot(t) => DoWriteSlot(s, t)
    case StoreReady(t) => DoStoreReady(s, t)
    case PopBegin => s.(consumer := HeadLoaded(s.head))
    case PopCheck => DoPopCheck(s)
    case PopTake => DoPopTake(s)
    case PopClear => DoPopClear(s)
    case PopAdvance => DoPopAdvance(s)
  }

  // Invariants

  predicate Holds<T>(s: State<T>, t: Tid, pos: nat) {
    t in s.producers && (s.producers[t].Claimed? || s.producers[t].Written?) && s.producers[t].pos == pos
  }

  /** The tickets outstanding are at most the capacity, and what was popped are the oldest tickets. */
  ghost predicate QueueInv<T>(s: State<T>) {
    && |s.slots| > 0 && IsCapacity(|s.slots|)
    && s.head <= s.tail <= s.head + |s.slots|
    && s.tail == |s.tickets| < TWO_64 - 1
    && s.head == |s.popped|
    && (forall i :: 0 <= i < s.head ==> s.popped[i] == Some(s.tickets[i]))
  }

  /** A stamped slot holds the value of the outstanding ticket that its stamp names. */
  ghost predicate SlotInv<T>(s: State<T>, j: nat)
    requires QueueInv(s)
  {
    j < |s.slots| && s.slots[j].ready != 0 ==>
      var pos := s.slots[j].ready - 1;
      && s.head <= pos < s.tail && SlotOf(s, pos) == j
      && s.slots[j].value == Some(s.tickets[pos])
      && forall t :: !Holds(s, t, pos)
  }

  ghost predicate ProducerInv<T>(s: State<T>, t: Tid)
    requires QueueInv(s)
  {
    t in s.producers ==>
      match s.producers[t]
      case Out(ret) => true
      case TailLoaded(v, tail) => tail <= s.tail
      case NotFull(v, tail) => tail <= s.tail && (tail == s.tail ==> s.tail < s.head + |s.slots|)
      case Claimed(v, pos) => TicketInv(s, t, v, pos)
      case Written(v, pos) => TicketInv(s, t, v, pos) && s.slots[SlotOf(s, pos)].value == Some(v)
  }

  /** A claimed ticket is outstanding, its slot is not stamped, and no one else holds it. */
  ghost predicate TicketInv<T>(s: State<T>, t: Tid, v: T, pos: nat)
    requires QueueInv(s)
  {
    && s.head <= pos < s.tail && s.tickets[pos] == v
    && s.slots[SlotOf(s, pos)].ready == 0
    && (forall u :: u != t ==> !Holds(s, u, pos))
    && (s.consumer.Cleared? ==> s.consumer.pos != pos)
  }

  ghost predicate ConsumerInv<T>(s: State<T>)
    requires QueueInv(s)
  {
    match s.consumer
    case Idle(ret) => true
    case HeadLoaded(pos) => pos == s.head
    case Ready(pos) => pos == s.head && IsStamped(s, pos)
    case Taken(pos, v) => pos == s.head && IsStamped(s, pos) && v == Some(s.tickets[pos])
    case Cleared(pos, v) =>
      pos == s.head < s.tail && v == Some(s.tickets[pos])
      && s.slots[SlotOf(s, pos)].ready == 0
  }

  ghost predicate IsStamped<T>(s: State<T>, pos: nat)
    requires QueueInv(s)
  {
    pos < s.tail && s.slots[SlotOf(s, pos)].ready == pos + 1
  }

  /** An outstanding ticket is being filled, is stamped, or is the one being popped. */
  ghost predicate OutstandingInv<T>(s: State<T>, pos: nat)
    requires QueueInv(s)
  {
    s.head <= pos < s.tail ==>
      (exists t :: Holds(s, t, pos)) || IsStamped(s, pos) || (s.consumer.Cleared? && pos == s.head)
  }

  ghost predicate Inv<T>(s: State<T>) {
    && QueueInv(s)
    && (forall j: nat :: SlotInv(s, j))
    && (forall t :: ProducerInv(s, t))
    && ConsumerInv(s)
    && (forall pos: nat :: OutstandingInv(s, pos))
  }

  // Each step keeps the invariant

  lemma SlotsApart<T>(s: State<T>, p: nat, q: nat)
    requires |s.slots| > 0 && IsCapacity(|s.slots|) && p != q && p < q + |s.slots| && q < p + |s.slots|
    ensures SlotOf(s, p) != SlotOf(s, q)
  {
    if p < q { IndexApart(p, q, |s.slots|); } else { IndexApart(q, p, |s.slots|); }
  }

  /** A step that only moves one producer between program points that hold no ticket. */
  lemma ProducerMoves<T>(s: State<T>, t: Tid, p: Producer<T>)
    requires Inv(s) && t in s.producers && !s.producers[t].Claimed? && !s.producers[t].Written?
    requires !p.Claimed? && !p.Written?
    requires ProducerInv(SetProducer(s, t, p), t)
    ensures Inv(SetProducer(s, t, p))
  {
    var s' := SetProducer(s, t, p);
    assert forall u, pos :: Holds(s', u, pos) <==> Holds(s, u, pos);
    forall j: nat ensures SlotInv(s', j) { assert SlotInv(s, j); }
    forall u ensures ProducerInv(s', u) { assert ProducerInv(s, u); }
    forall pos: nat ensures OutstandingInv(s', pos) { assert OutstandingInv(s, pos); }
  }

  lemma BeginKeepsInv<T>(s: State<T>, t: Tid, v: T)
    requires Inv(s) && t in s.producers && s.producers[t].Out?
    ensures Inv(SetProducer(s, t, TailLoaded(v, s.tail)))
  {
    ProducerMoves(s, t, TailLoaded(v, s.tail));
  }

  lemma LoadHeadKeepsInv<T>(s: State<T>, t: Tid)
    requires Inv(s) && t in s.producers && s.producers[t].TailLoaded?
    ensures Inv(DoLoadHead(s, t))
  {
    var p := s.producers[t];
    assert ProducerInv(s, t);
    ProducerMoves(s, t, if SeemsFull(s, p.tail) then Out(Rejected(p.v)) else NotFull(p.v, p.tail));
  }

  lemma CasKeepsInv<T>(s: State<T>, t: Tid, spurious: bool)
    requires Inv(s) && t in s.producers && s.producers[t].NotFull?
    requires !spurious && s.tail == s.producers[t].tail ==> s.tail < TWO_64 - 2
    ensures Inv(DoCas(s, t, spurious))
  {
    if !spurious && s.tail == s.producers[t].tail {
      ClaimKeepsInv(s, t);
    } else {
      ProducerMoves(s, t, TailLoaded(s.producers[t].v, s.tail));
    }
  }

  /** The slot of the next ticket is neither stamped nor held. */
  lemma NextSlotIsFree<T>(s: State<T>)
    requires Inv(s) && s.tail < s.head + |s.slots|
    ensures s.slots[SlotOf(s, s.tail)].ready == 0
  {
    var j := SlotOf(s, s.tail);
    assert SlotInv(s, j);
    if s.slots[j].ready != 0 {
      SlotsApart(s, s.slots[j].ready - 1, s.tail);
    }
  }

  lemma ClaimKeepsInv<T>(s: State<T>, t: Tid)
    requires Inv(s) && t in s.producers && s.producers[t].NotFull?
    requires s.tail == s.producers[t].tail < TWO_64 - 2
    ensures Inv(DoCas(s, t, false))
  {
    var s' := DoCas(s, t, false);
    assert ProducerInv(s, t);
    forall u ensures ProducerInv(s', u) { ClaimKeepsProducer(s, t, u); }
    forall j: nat ensures SlotInv(s', j) { ClaimKeepsSlot(s, t, j); }
    forall pos: nat ensures OutstandingInv(s', pos) { ClaimKeepsOutstanding(s, t, pos); }
  }

  lemma ClaimKeepsProducer<T>(s: State<T>, t: Tid, u: Tid)
    requires Inv(s) && t in s.producers && s.producers[t].NotFull?
    requires s.tail == s.producers[t].tail < TWO_64 - 2 && QueueInv(DoCas(s, t, false))
    ensures ProducerInv(DoCas(s, t, false), u)
  {
    var s' := DoCas(s, t, false);
    assert ProducerInv(s, t) && ProducerInv(s, u);
    NextSlotIsFree(s);
    forall x ensures !Holds(s, x, s.tail) { assert ProducerInv(s, x); }
    assert forall x, pos :: Holds(s', x, pos) <==> Holds(s, x, pos) || (x == t && pos == s.tail);
  }

  lemma ClaimKeepsSlot<T>(s: State<T>, t: Tid, j: nat)
    requires Inv(s) && t in s.producers && s.producers[t].NotFull?
    requires s.tail == s.producers[t].tail < TWO_64 - 2 && QueueInv(DoCas(s, t, false))
    ensures SlotInv(DoCas(s, t, false), j)
  {
    var s' := DoCas(s, t, false);
    assert SlotInv(s, j);
    if j < |s.slots| && s.slots[j].ready != 0 {
      var pos := s.slots[j].ready - 1;
      forall x ensures !Holds(s', x, pos) { assert !Holds(s, x, pos); }
    }
  }

  lemma ClaimKeepsOutstanding<T>(s: State<T>, t: Tid, pos: nat)
    requires Inv(s) && t in s.producers && s.producers[t].NotFull?
    requires s.tail == s.producers[t].tail < TWO_64 - 2 && QueueInv(DoCas(s, t, false))
    ensures OutstandingInv(DoCas(s, t, false), pos)
  {
    var s' := DoCas(s, t, false);
    assert OutstandingInv(s, pos);
    if pos == s.tail {
      assert Holds(s', t, pos);
    } else if u :| Holds(s, u, pos) {
      assert Holds(s', u, pos);
    }
  }

  lemma WriteSlotKeepsInv<T>(s: State<T>, t: Tid)
    requires Inv(s) && t in s.producers && s.producers[t].Claimed?
    ensures Inv(DoWriteSlot(s, t))
  {
    var s' := DoWriteSlot(s, t);
    assert ProducerInv(s, t);
    assert forall u, pos :: Holds(s', u, pos) <==> Holds(s, u, pos);
    forall u ensures ProducerInv(s', u) {
      assert ProducerInv(s, u);
      if u != t && u in s.producers && s.producers[u].Written? {
        assert !Holds(s, u, s.producers[t].pos);
        SlotsApart(s, s.producers[u].pos, s.producers[t].pos);
      }
    }
    forall j: nat ensures SlotInv(s', j) { assert SlotInv(s, j); }
    forall pos: nat ensures OutstandingInv(s', pos) { assert OutstandingInv(s, pos); }
  }

  lemma StoreReadyKeepsInv<T>(s: State<T>, t: Tid)
    requires Inv(s) && t in s.producers && s.producers[t].Written?
    ensures Inv(DoStoreReady(s, t))
  {
    var s' := DoStoreReady(s, t);
    assert ProducerInv(s, t);
    forall u ensures ProducerInv(s', u) { StoreReadyKeepsProducer(s, t, u); }
    forall j: nat ensures SlotInv(s', j) { StoreReadyKeepsSlot(s, t, j); }
    forall pos: nat ensures OutstandingInv(s', pos) { StoreReadyKeepsOutstanding(s, t, pos); }
    if s.consumer.Cleared? { SlotsApart(s, s.consumer.pos, s.producers[t].pos); }
  }

  lemma StoreReadyKeepsSlot<T>(s: State<T>, t: Tid, j: nat)
    requires Inv(s) && t in s.producers && s.producers[t].Written?
    requires QueueInv(DoStoreReady(s, t))
    ensures SlotInv(DoStoreReady(s, t), j)
  {
    assert ProducerInv(s, t);
    assert SlotInv(s, j);
    assert forall u, pos :: Holds(DoStoreReady(s, t), u, pos) <==> Holds(s, u, pos) && u != t;
  }

  lemma StoreReadyKeepsProducer<T>(s: State<T>, t: Tid, u: Tid)
    requires Inv(s) && t in s.producers && s.producers[t].Written?
    requires QueueInv(DoStoreReady(s, t))
    ensures ProducerInv(DoStoreReady(s, t), u)
  {
    assert ProducerInv(s, t) && ProducerInv(s, u);
    assert forall u, pos :: Holds(DoStoreReady(s, t), u, pos) <==> Holds(s, u, pos) && u != t;
    if u != t && u in s.producers && (s.producers[u].Claimed? || s.producers[u].Written?) {
      assert !Holds(s, u, s.producers[t].pos);
      SlotsApart(s, s.producers[u].pos, s.producers[t].pos);
    }
  }

  lemma StoreReadyKeepsOutstanding<T>(s: State<T>, t: Tid, pos: nat)
    requires Inv(s) && t in s.producers && s.producers[t].Written?
    requires QueueInv(DoStoreReady(s, t))
    ensures OutstandingInv(DoStoreReady(s, t), pos)
  {
    assert ProducerInv(s, t);
    assert OutstandingInv(s, pos);
    if s.head <= pos < s.tail && pos != s.producers[t].pos {
      SlotsApart(s, pos, s.producers[t].pos);
      if u :| Holds(s, u, pos) { assert Holds(DoStoreReady(s, t), u, pos); }
    }
  }

  /** A step that only moves the consumer, before it has cleared a stamp. */
  lemma ConsumerMoves<T>(s: State<T>, c: Consumer<T>)
    requires Inv(s) && !s.consumer.Cleared? && !c.Cleared? && ConsumerInv(s.(consumer := c))
    ensures Inv(s.(consumer := c))
  {
    var s' := s.(consumer := c);
    assert forall u, pos :: Holds(s', u, pos) <==> Holds(s, u, pos);
    forall j: nat ensures SlotInv(s', j) { assert SlotInv(s, j); }
    forall u ensures ProducerInv(s', u) { assert ProducerInv(s, u); }
    forall pos: nat ensures OutstandingInv(s', pos) { assert OutstandingInv(s, pos); }
  }

  lemma PopCheckKeepsInv<T>(s: State<T>)
    requires Inv(s) && s.consumer.HeadLoaded?
    ensures Inv(DoPopCheck(s))
  {
    var h := s.consumer.pos;
    assert SlotInv(s, SlotOf(s, h));
    ConsumerMoves(s, if s.slots[SlotOf(s, h)].ready != WrapAdd64(h, 1) then Idle(None) else Ready(h));
  }

  lemma PopTakeKeepsInv<T>(s: State<T>)
    requires Inv(s) && s.consumer.Ready?
    ensures Inv(DoPopTake(s))
  {
    assert SlotInv(s, SlotOf(s, s.consumer.pos));
    ConsumerMoves(s, Taken(s.consumer.pos, s.slots[SlotOf(s, s.consumer.pos)].value));
  }

  lemma PopClearKeepsInv<T>(s: State<T>)
    requires Inv(s) && s.consumer.Taken?
    ensures Inv(DoPopClear(s))
  {
    var s' := DoPopClear(s);
    var h := s.consumer.pos;
    assert SlotInv(s, SlotOf(s, h));
    assert forall u, pos :: Holds(s', u, pos) <==> Holds(s, u, pos);
    forall u ensures ProducerInv(s', u) {
      assert ProducerInv(s, u);
      assert !Holds(s, u, h);
    }
    forall j: nat ensures SlotInv(s', j) { assert SlotInv(s, j); }
    forall pos: nat ensures OutstandingInv(s', pos) {
      assert OutstandingInv(s, pos);
      if s.head <= pos < s.tail && pos != h { SlotsApart(s, pos, h); }
    }
  }

  lemma PopAdvanceKeepsInv<T>(s: State<T>)
    requires Inv(s) && s.consumer.Cleared?
    ensures Inv(DoPopAdvance(s))
  {
    var s' := DoPopAdvance(s);
    assert forall u, pos :: Holds(s', u, pos) <==> Holds(s, u, pos);
    forall u ensures ProducerInv(s', u) { assert ProducerInv(s, u); }
    forall j: nat ensures SlotInv(s', j) {
      assert SlotInv(s, j);
    }
    forall pos: nat ensures OutstandingInv(s', pos) { assert OutstandingInv(s, pos); }
  }

  lemma StepKeepsInv<T>(s: State<T>, l: Label<T>)
    requires Inv(s) && Enabled(s, l)
    ensures Inv(Next(s, l))
  {
    match l
    case Begin(t, v) => BeginKeepsInv(s, t, v);
    case LoadHead(t) => LoadHeadKeepsInv(s, t);
    case Cas(t, spurious) => CasKeepsInv(s, t, spurious);
    case WriteSlot(t) => WriteSlotKeepsInv(s, t);
    case StoreReady(t) => StoreReadyKeepsInv(s, t);
    case PopBegin => ConsumerMoves(s, HeadLoaded(s.head));
    case PopCheck => PopCheckKeepsInv(s);
    case PopTake => PopTakeKeepsInv(s);
    case PopClear => PopClearKeepsInv(s);
    case PopAdvance => PopAdvanceKeepsInv(s);
  }

  // Runs

  ghost predicate Init<T>(s: State<T>) {
    && |s.slots| > 0 && IsCapacity(|s.slots|)
    && s.head == 0 && s.tail == 0 && s.consumer.Idle? && s.tickets == [] && s.popped == []
    && (forall t :: t in s.producers ==> s.producers[t].Out?)
    && (forall j :: 0 <= j < |s.slots| ==> s.slots[j].ready == 0)
  }

  lemma InitHasInv<T>(s: State<T>)
    requires Init(s)
    ensures Inv(s)
  {
  }

  ghost predicate IsRun<T(!new)>(states: seq<State<T>>, labels: seq<Label<T>>) {
    && |states| == |labels| + 1
    && Init(states[0])
    && (forall i :: 0 <= i < |labels| ==> IsStep(states[i], labels[i], states[i + 1]))
  }

  predicate IsStep<T(==)>(s: State<T>, l: Label<T>, s': State<T>) {
    Enabled(s, l) && s' == Next(s, l)
  }

  lemma {:induction false} RunKeepsInv<T(!new)>(states: seq<State<T>>, labels: seq<Label<T>>, i: nat)
    requires IsRun(states, labels) && i < |states|
    ensures Inv(states[i])
  {
    if i == 0 {
      InitHasInv(states[0]);
    } else {
      RunKeepsInv(states, labels, i - 1);
      assert IsStep(states[i - 1], labels[i - 1], states[i]);
      StepKeepsInv(states[i - 1], labels[i - 1]);
    }
  }

  /** Tickets, once given out, stay: the history only grows. */
  lemma {:induction false} TicketsGrow<T(!new)>(states: seq<State<T>>, labels: seq<Label<T>>, i: nat, j: nat)
    requires IsRun(states, labels) && i <= j < |states|
    ensures states[i].tickets <= states[j].tickets && states[i].popped <= states[j].popped
    decreases j
  {
    if i < j { TicketsGrow(states, labels, i, j - 1); }
  }

  /** The calls to `pop` that return a value return the claimed values in ticket order, each exactly once. */
  lemma PopsInTicketOrder<T(!new)>(states: seq<State<T>>, labels: seq<Label<T>>, i: nat, k: nat)
    requires IsRun(states, labels) && i < |states| && k < |states[i].popped|
    ensures |states[i].popped| <= |states[i].tickets| <= |states[i].popped| + |states[i].slots|
    ensures states[i].popped[k] == Some(states[i].tickets[k])
    ensures k < |states[|labels|].tickets| && states[i].popped[k] == Some(states[|labels|].tickets[k])
  {
    RunKeepsInv(states, labels, i);
    TicketsGrow(states, labels, i, |labels|);
  }

  /** The slot a producer owns between its successful exchange and its stamp. */
  predicate OwnsSlot<T>(s: State<T>, t: Tid, j: nat) {
    |s.slots| > 0 && t in s.producers && (s.producers[t].Claimed? || s.producers[t].Written?)
    && SlotOf(s, s.producers[t].pos) == j
  }

  /** The slot the consumer reads and clears. */
  predicate ConsumerOwnsSlot<T>(s: State<T>, j: nat) {
    |s.slots| > 0 && (s.consumer.Ready? || s.consumer.Taken? || s.consumer.Cleared?) && SlotOf(s, s.consumer.pos) == j
  }

  /** No slot is ever accessed by two parties. */
  lemma SlotsAreExclusive<T(!new)>(states: seq<State<T>>, labels: seq<Label<T>>, i: nat, j: nat, t: Tid, u: Tid)
    requires IsRun(states, labels) && i < |states|
    requires OwnsSlot(states[i], t, j)
    ensures OwnsSlot(states[i], u, j) ==> t == u
    ensures !ConsumerOwnsSlot(states[i], j)
  {
    var s := states[i];
    RunKeepsInv(states, labels, i);
    assert ProducerInv(s, t) && ProducerInv(s, u);
    if t != u && OwnsSlot(s, u, j) {
      assert Holds(s, u, s.producers[u].pos);
      SlotsApart(s, s.producers[t].pos, s.producers[u].pos);
    }
    if ConsumerOwnsSlot(s, j) && s.consumer.Cleared? {
      SlotsApart(s, s.producers[t].pos, s.consumer.pos);
    }
  }

  /** No ticket is outstanding, or the oldest is being written. */
  ghost predicate NothingReady<T(!new)>(s: State<T>) {
    s.head == s.tail || exists t :: Holds(s, t, s.head)
  }

  /** `pop` returns nothing exactly when no ticket is outstanding or the oldest one is still being written. */
  lemma PopFailsIff<T(!new)>(states: seq<State<T>>, labels: seq<Label<T>>, i: nat)
    requires IsRun(states, labels) && i < |labels| && labels[i].PopCheck?
    ensures states[i + 1].consumer.Idle? <==> NothingReady(states[i])
  {
    var s := states[i];
    RunKeepsInv(states, labels, i);
    assert OutstandingInv(s, s.head);
    assert SlotInv(s, SlotOf(s, s.head));
    if t :| Holds(s, t, s.head) { assert ProducerInv(s, t); }
  }

  /** The ring is full, or exactly `2^64 - N` values were popped since the producer loaded `tail`. */
  predicate GivesUp<T>(s: State<T>, tail: nat) {
    (tail == s.tail && s.tail - s.head == |s.slots|) || s.head - tail == TWO_64 - |s.slots|
  }

  /**
   `push` gives up exactly when the ring is full, or when exactly `2^64 - N` values were popped
   since the producer loaded `tail`.
   */
  lemma PushFailsIff<T(!new)>(states: seq<State<T>>, labels: seq<Label<T>>, i: nat, t: Tid)
    requires IsRun(states, labels) && i < |labels| && labels[i] == LoadHead(t)
    ensures var s := states[i];
      states[i + 1].producers[t].Out? <==> GivesUp(s, s.producers[t].tail)
  {
    var s := states[i];
    RunKeepsInv(states, labels, i);
    assert ProducerInv(s, t);
    CapacityFits(|s.slots|);
  }

  /** Failing only when full holds exactly for producers that did not sleep through `2^64 - N` pops. */
  lemma PushFailsOnlyWhenFullIff<T(!new)>(states: seq<State<T>>, labels: seq<Label<T>>, i: nat, t: Tid)
    requires IsRun(states, labels) && i < |labels| && labels[i] == LoadHead(t)
    ensures var s := states[i];
      (states[i + 1].producers[t].Out? ==> s.tail - s.head == |s.slots|)
        <==> s.head - s.producers[t].tail != TWO_64 - |s.slots|
  {
    PushFailsIff(states, labels, i, t);
    RunKeepsInv(states, labels, i);
  }

  // What the calls return

  predicate IsOut<T>(s: State<T>, t: Tid) { t in s.producers && s.producers[t].Out? }

  /** The label is a step of producer `t`. */
  predicate IsBy<T>(l: Label<T>, t: Tid) {
    (l.Begin? || l.LoadHead? || l.Cas? || l.WriteSlot? || l.StoreReady?) && l.t == t
  }

  /** The values for which producer `t` got a ticket in the steps from `i` to `k`. */
  ghost function Given<T(!new)>(states: seq<State<T>>, labels: seq<Label<T>>, t: Tid, i: nat, k: nat): seq<T>
    requires IsRun(states, labels) && i <= k <= |labels|
    decreases k
  {
    if i == k then []
    else
      Given(states, labels, t, i, k - 1) + if IsBy(labels[k - 1], t) then GivenBy(states[k - 1], states[k]) else []
  }

  function GivenBy<T>(s: State<T>, s': State<T>): seq<T> {
    if |s.tickets| <= |s'.tickets| then s'.tickets[|s.tickets|..] else []
  }

  /** Where a call of `push` stands that got tickets for `given`. */
  predicate PushStands<T(==)>(p: Producer<T>, v: T, given: seq<T>) {
    match p
    case Out(ret) => false
    case TailLoaded(v', tail) => v' == v && given == []
    case NotFull(v', tail) => v' == v && given == []
    case Claimed(v', pos) => v' == v && given == [v]
    case Written(v', pos) => v' == v && given == [v]
  }

  /** How a call of `push` that leaves in state `s` and got tickets for `given` must end. */
  ghost predicate PushEnds<T(!new)>(s: State<T>, s': State<T>, t: Tid, v: T, given: seq<T>, ret: PushResult<T>) {
    match ret
    case Pushed =>
      given == [v] && exists pos: nat :: QueueInv(s') && s'.head <= pos && IsStamped(s', pos) && s'.tickets[pos] == v
    case Rejected(v') =>
      v' == v && given == [] && t in s.producers && s.producers[t].TailLoaded? && GivesUp(s, s.producers[t].tail)
  }

  /** After a step the call stands somewhere or has ended. */
  ghost predicate PushAfter<T(!new)>(s: State<T>, s': State<T>, t: Tid, v: T, given: seq<T>) {
    t in s'.producers &&
    var p := s'.producers[t];
    PushStands(p, v, given) || (p.Out? && PushEnds(s, s', t, v, given, p.ret))
  }

  /** A step of another party leaves the call where it stands. */
  lemma OthersStay<T>(s: State<T>, l: Label<T>, t: Tid)
    requires Enabled(s, l) && t in s.producers && !IsBy(l, t)
    ensures t in Next(s, l).producers && Next(s, l).producers[t] == s.producers[t]
  {
  }

  lemma PushStep<T(!new)>(s: State<T>, l: Label<T>, t: Tid, v: T, given: seq<T>)
    requires Inv(s) && Enabled(s, l) && IsBy(l, t) && PushStands(s.producers[t], v, given)
    ensures PushAfter(s, Next(s, l), t, v, given + GivenBy(s, Next(s, l)))
  {
    assert ProducerInv(s, t);
    CapacityFits(|s.slots|);
    if l.StoreReady? {
      StoreReadyKeepsInv(s, t);
      assert IsStamped(Next(s, l), s.producers[t].pos);
    }
  }

  ghost predicate InCall<T(!new)>(states: seq<State<T>>, t: Tid, i: nat, k: nat) {
    k < |states| && forall j :: i < j < k ==> !IsOut(states[j], t)
  }

  lemma {:induction false} PushProgress<T(!new)>(states: seq<State<T>>, labels: seq<Label<T>>, t: Tid, v: T,
                                                 i: nat, k: nat)
    requires IsRun(states, labels) && i < k <= |labels| && labels[i] == Begin(t, v) && InCall(states, t, i, k)
    ensures PushAfter(states[k - 1], states[k], t, v, Given(states, labels, t, i, k))
    decreases k
  {
    assert IsStep(states[k - 1], labels[k - 1], states[k]);
    if k == i + 1 {
      assert Given(states, labels, t, i, i) == [];
    } else {
      PushProgress(states, labels, t, v, i, k - 1);
      assert !IsOut(states[k - 1], t);
      if IsBy(labels[k - 1], t) {
        RunKeepsInv(states, labels, k - 1);
        PushStep(states[k - 1], labels[k - 1], t, v, Given(states, labels, t, i, k - 1));
      } else {
        OthersStay(states[k - 1], labels[k - 1], t);
      }
    }
  }

  /**
   A call of `push` returns success if and only if it got a ticket for its value, exactly one, and
   then the value is in the ring, stamped; otherwise it returns the value, at a load of `head` that
   shows the ring full or comes exactly `2^64 - N` pops after its load of `tail`.
   */
  lemma PushReturns<T(!new)>(states: seq<State<T>>, labels: seq<Label<T>>, t: Tid, v: T, i: nat, k: nat)
    requires IsRun(states, labels) && i < k <= |labels| && labels[i] == Begin(t, v)
    requires InCall(states, t, i, k) && IsOut(states[k], t)
    ensures PushEnds(states[k - 1], states[k], t, v, Given(states, labels, t, i, k), states[k].producers[t].ret)
  {
    PushProgress(states, labels, t, v, i, k);
  }

  ghost predicate InPop<T(!new)>(states: seq<State<T>>, i: nat, k: nat) {
    k < |states| && forall j :: i < j < k ==> !states[j].consumer.Idle?
  }

  lemma {:induction false} PopProgress<T(!new)>(states: seq<State<T>>, labels: seq<Label<T>>, i: nat, k: nat)
    requires IsRun(states, labels) && i < k <= |labels| && labels[i] == PopBegin && InPop(states, i, k)
    ensures !states[k].consumer.Idle? ==> states[k].popped == states[i].popped
    ensures states[k].consumer.Idle? && states[k].consumer.ret.Some? ==>
      states[k].popped == states[i].popped + [states[k].consumer.ret]
    ensures states[k].consumer.Idle? && states[k].consumer.ret.None? ==>
      labels[k - 1] == PopCheck && states[k].popped == states[i].popped
    decreases k
  {
    assert IsStep(states[k - 1], labels[k - 1], states[k]);
    if k > i + 1 {
      PopProgress(states, labels, i, k - 1);
      RunKeepsInv(states, labels, k - 1);
    }
  }

  /**
   A call of `pop` that returns a value popped it, once and nothing else; one that returns nothing
   popped nothing, and when it looked, no ticket was outstanding or the oldest was being written.
   */
  lemma PopReturns<T(!new)>(states: seq<State<T>>, labels: seq<Label<T>>, i: nat, k: nat)
    requires IsRun(states, labels) && i < k <= |labels| && labels[i] == PopBegin
    requires InPop(states, i, k) && states[k].consumer.Idle?
    ensures var ret := states[k].consumer.ret;
      states[k].popped == states[i].popped + if ret.Some? then [ret] else []
    ensures states[k].consumer.ret.None? ==> NothingReady(states[k - 1])
  {
    PopProgress(states, labels, i, k);
    if states[k].consumer.ret.None? { PopFailsIff(states, labels, k - 1); }
  }

  // A run in which `push` fails on an empty ring

  ghost predicate Reachable<T(!new)>(s: State<T>) {
    exists states, labels :: IsRun(states, labels) && states[|labels|] == s
  }

  lemma ReachesNext<T(!new)>(s: State<T>, l: Label<T>) returns (s': State<T>)
    requires Reachable(s) && Enabled(s, l)
    ensures s' == Next(s, l) && Reachable(s')
  {
    var states, labels :| IsRun(states, labels) && states[|labels|] == s;
    s' := Next(s, l);
    assert IsRun(states + [s'], labels + [l]);
    assert (states + [s'])[|labels + [l]|] == s';
  }

  /** The ring is empty after `m` pushes and pops, while producer 0 still holds the tail it loaded first. */
  predicate Parked<T>(s: State<T>, m: nat) {
    && |s.slots| > 0 && s.head == s.tail == m && s.consumer.Idle?
    && s.producers.Keys == {0, 1} && s.producers[0].TailLoaded? && s.producers[0].tail == 0 && s.producers[1].Out?
    && (forall j :: 0 <= j < |s.slots| ==> s.slots[j].ready == 0)
  }

  /** Producer 1 pushes one value and the consumer takes it. */
  lemma OneRound<T(!new)>(s: State<T>, m: nat, v: T) returns (s': State<T>)
    requires Reachable(s) && Parked(s, m) && m < TWO_64 - 2
    ensures Reachable(s') && Parked(s', m + 1) && |s'.slots| == |s.slots|
  {
    s' := PushOne(s, m, v);
    s' := ReachesNext(s', PopBegin);
    s' := ReachesNext(s', PopCheck);
    s' := ReachesNext(s', PopTake);
    s' := ReachesNext(s', PopClear);
    s' := ReachesNext(s', PopAdvance);
  }

  lemma PushOne<T(!new)>(s: State<T>, m: nat, v: T) returns (s': State<T>)
    requires Reachable(s) && Parked(s, m) && m < TWO_64 - 2
    ensures Reachable(s') && s'.head == m && s'.tail == m + 1 && s'.consumer.Idle?
    ensures s'.producers == s.producers[1 := Out(Pushed)]
    ensures |s'.slots| == |s.slots| && s'.slots[SlotOf(s, m)].ready == m + 1
    ensures forall j :: 0 <= j < |s'.slots| && j != SlotOf(s, m) ==> s'.slots[j].ready == 0
  {
    s' := ClaimOne(s, m, v);
    s' := ReachesNext(s', WriteSlot(1));
    s' := ReachesNext(s', StoreReady(1));
  }

  lemma ClaimOne<T(!new)>(s: State<T>, m: nat, v: T) returns (s': State<T>)
    requires Reachable(s) && Parked(s, m) && m < TWO_64 - 2
    ensures Reachable(s') && s'.head == m && s'.tail == m + 1 && s'.consumer.Idle? && s'.slots == s.slots
    ensures s'.producers == s.producers[1 := Claimed(v, m)]
  {
    s' := ReachesNext(s, Begin(1, v));
    s' := ReachesNext(s', LoadHead(1));
    s' := ReachesNext(s', Cas(1, false));
  }

  lemma {:induction false} ReachParked<T(!new)>(s: State<T>, m: nat, v: T) returns (s': State<T>)
    requires Init(s) && s.producers.Keys == {0, 1} && m <= TWO_64 - 2
    ensures Reachable(s') && Parked(s', m) && |s'.slots| == |s.slots|
    decreases m
  {
    if m == 0 {
      var none: seq<Label<T>> := [];
      assert IsRun([s], none) && [s][|none|] == s;
      s' := ReachesNext(s, Begin(0, v));
    } else {
      s' := ReachParked(s, m - 1, v);
      s' := OneRound(s', m - 1, v);
    }
  }

  /** A producer stalled between its loads can see a full ring although the ring is empty. */
  lemma PushCanFailOnEmptyRing<T(!new)>(s: State<T>, v: T) returns (s': State<T>)
    requires Init(s) && s.producers.Keys == {0, 1} && |s.slots| > 1
    ensures Reachable(s') && s'.head == s'.tail && Enabled(s', LoadHead(0)) && Next(s', LoadHead(0)).producers[0].Out?
  {
    CapacityFits(|s.slots|);
    s' := ReachParked(s, TWO_64 - |s.slots|, v);
  }
}
