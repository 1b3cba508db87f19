/**
 The single-producer single-consumer ring, as a machine whose steps are the
 atomic loads and stores and the slot accesses of `push` and `pop`. The words
 `head` and `tail` wrap at `2^64`; `pushed` and `popped` record the whole history.
 */
module Spsc {
  import opened Bits
  import opened Common
  import opened RingIndex

  /** What `push` returns: a full ring gives the value back. */
  datatype PushResult<T> = Pushed | Rejected(v: T)

  /** The producer inside `push`, or out of it with the result of its last call. */
  datatype Producer<T> =
    | Out(ret: PushResult<T>)
    | TailLoaded(v: T, tail: nat)
    | NotFull(v: T, tail: nat)
    | Written(v: T, tail: nat)

  /** The consumer inside `pop`, or out of it with the result of its last call. */
  datatype Consumer<T> =
    | Idle(ret: Option<T>)
    | HeadLoaded(head: nat)
    | NotEmpty(head: nat)
    | Taken(head: nat, v: Option<T>)

  datatype State<T> = State(
    head: nat,
    tail: nat,
    slots: seq<Option<T>>,
    producer: Producer<T>,
    consumer: Consumer<T>,
    pushed: seq<T>,
    popped: seq<Option<T>>)

  datatype Label<T> =
    | PushLoadTail(v: T)
    | PushLoadHead
    | PushWrite
    | PushStore
    | PopLoadHead
    | PopLoadTail
    | PopTake
    | PopStore

  predicate Enabled<T>(s: State<T>, l: Label<T>) {
    |s.slots| > 0 &&
    match l
    case PushLoadTail(v) => s.producer.Out?
    case PushLoadHead => s.producer.TailLoaded?
    case PushWrite => s.producer.NotFull?
    case PushStore => s.producer.Written?
    case PopLoadHead => s.consumer.Idle?
    case PopLoadTail => s.consumer.HeadLoaded?
    case PopTake => s.consumer.NotEmpty?
    case PopStore => s.consumer.Taken?
  }

  function Next<T>(s: State<T>, l: Label<T>): State<T>
    requires Enabled(s, l)
  {
    match l
    case PushLoadTail(v) => s.(producer := TailLoaded(v, s.tail))
    case PushLoadHead =>
      var p := s.producer;
      s.(producer := if WrapSub64(p.tail, s.head) == |s.slots| then Out(Rejected(p.v)) else NotFull(p.v, p.tail))
    case PushWrite =>
      var p := s.producer;
      s.(slots := s.slots[Index(p.tail, |s.slots|) := Some(p.v)], producer := Written(p.v, p.tail))
    case PushStore =>
      var p := s.producer;
      s.(tail := WrapAdd64(p.tail, 1), pushed := s.pushed + [p.v], producer := Out(Pushed))
    case PopLoadHead => s.(consumer := HeadLoaded(s.head))
    case PopLoadTail =>
      var c := s.consumer;
      s.(consumer := if c.head == s.tail then Idle(None) else NotEmpty(c.head))
    case PopTake =>
      var c := s.consumer;
      s.(consumer := Taken(c.head, s.slots[Index(c.head, |s.slots|)]))
    case PopStore =>
      var c := s.consumer;
      s.(head := WrapAdd64(c.head, 1), popped := s.popped + [c.v], consumer := Idle(c.v))
  }

  function Occupancy<T>(s: State<T>): int {
    |s.pushed| - |s.popped|
  }

  ghost predicate QueueInv<T>(s: State<T>) {
    && |s.slots| > 0 && IsCapacity(|s.slots|)
    && s.head == |s.popped| % TWO_64 && s.tail == |s.pushed| % TWO_64
    && 0 <= Occupancy(s) <= |s.slots|
    && (forall i :: 0 <= i < |s.popped| ==> s.popped[i] == Some(s.pushed[i]))
    && (forall i :: |s.popped| <= i < |s.pushed| ==> s.slots[Index(i, |s.slots|)] == Some(s.pushed[i]))
  }

  ghost predicate ProducerInv<T>(s: State<T>)
    requires QueueInv(s)
  {
    match s.producer
    case Out(ret) => true
    case TailLoaded(v, tail) => tail == s.tail
    case NotFull(v, tail) => tail == s.tail && Occupancy(s) < |s.slots|
    case Written(v, tail) => tail == s.tail && Occupancy(s) < |s.slots| && s.slots[Index(tail, |s.slots|)] == Some(v)
  }

  ghost predicate ConsumerInv<T>(s: State<T>)
    requires QueueInv(s)
  {
    match s.consumer
    case Idle(ret) => true
    case HeadLoaded(head) => head == s.head
    case NotEmpty(head) => head == s.head && Occupancy(s) > 0
    case Taken(head, v) => head == s.head && Occupancy(s) > 0 && v == Some(s.pushed[|s.popped|])
  }

  ghost predicate Inv<T>(s: State<T>) {
    QueueInv(s) && ProducerInv(s) && ConsumerInv(s)
  }

  /** The wrapped words determine the true occupancy. */
  lemma WrappedDifference<T>(s: State<T>)
    requires QueueInv(s)
    ensures WrapSub64(s.tail, s.head) == Occupancy(s)
    ensures s.head == s.tail <==> Occupancy(s) == 0
  {
    CapacityFits(|s.slots|);
  }

  lemma PushWriteKeepsInv<T>(s: State<T>)
    requires Inv(s) && s.producer.NotFull?
    ensures Inv(Next(s, PushWrite))
  {
    var n := |s.slots|;
    IndexOfWrapped(|s.pushed|, n);
    forall i | |s.popped| <= i < |s.pushed| ensures Index(i, n) != Index(s.tail, n) {
      IndexApart(i, |s.pushed|, n);
    }
  }

  lemma WrapSuccessor(x: nat)
    ensures WrapAdd64(x % TWO_64, 1) == (x + 1) % TWO_64
  {
  }

  lemma PushStoreKeepsInv<T>(s: State<T>)
    requires Inv(s) && s.producer.Written?
    ensures Inv(Next(s, PushStore))
  {
    var s' := Next(s, PushStore);
    IndexOfWrapped(|s.pushed|, |s.slots|);
    WrapSuccessor(|s.pushed|);
    assert |s'.pushed| == |s.pushed| + 1 && s'.tail == |s'.pushed| % TWO_64;
    assert forall i :: 0 <= i < |s.pushed| ==> s'.pushed[i] == s.pushed[i];
  }

  lemma PopTakeKeepsInv<T>(s: State<T>)
    requires Inv(s) && s.consumer.NotEmpty?
    ensures Inv(Next(s, PopTake))
  {
    IndexOfWrapped(|s.popped|, |s.slots|);
  }

  lemma PopStoreKeepsInv<T>(s: State<T>)
    requires Inv(s) && s.consumer.Taken?
    ensures Inv(Next(s, PopStore))
  {
    var s' := Next(s, PopStore);
    WrapSuccessor(|s.popped|);
    assert |s'.popped| == |s.popped| + 1 && s'.head == |s'.popped| % TWO_64;
  }

  lemma StepKeepsInv<T>(s: State<T>, l: Label<T>)
    requires Inv(s) && Enabled(s, l)
    ensures Inv(Next(s, l))
  {
    match l
    case PushLoadHead => WrappedDifference(s);
    case PushWrite => PushWriteKeepsInv(s);
    case PushStore => PushStoreKeepsInv(s);
    case PopLoadTail => WrappedDifference(s);
    case PopTake => PopTakeKeepsInv(s);
    case PopStore => PopStoreKeepsInv(s);
    case _ =>
  }

  // Runs

  ghost predicate Init<T>(s: State<T>) {
    && |s.slots| > 0 && IsCapacity(|s.slots|) && s.head == 0 && s.tail == 0
    && s.producer.Out? && s.consumer.Idle? && s.pushed == [] && s.popped == []
  }

  ghost predicate IsRun<T(!new)>(states: seq<State<T>>, labels: seq<Label<T>>) {
    && |states| == |labels| + 1
    && Init(states[0])
    && (forall i :: 0 <= i < |labels| ==> IsStep(states[i], labels[i], states[i + 1]))
  }

  predicate IsStep<T(==)>(s: State<T>, l: Label<T>, s': State<T>) {
    Enabled(s, l) && s' == Next(s, l)
  }

  lemma {:induction false} RunKeepsInv<T(!new)>(states: seq<State<T>>, labels: seq<Label<T>>, i: nat)
    requires IsRun(states, labels) && i < |states|
    ensures Inv(states[i])
  {
    if i > 0 {
      RunKeepsInv(states, labels, i - 1);
      assert IsStep(states[i - 1], labels[i - 1], states[i]);
      StepKeepsInv(states[i - 1], labels[i - 1]);
    }
  }

  /** First in, first out, with at most `N` values in the ring, however often the words have wrapped. */
  lemma IsFifo<T(!new)>(states: seq<State<T>>, labels: seq<Label<T>>, i: nat)
    requires IsRun(states, labels) && i < |states|
    ensures 0 <= Occupancy(states[i]) <= |states[i].slots|
    ensures WrapSub64(states[i].tail, states[i].head) == Occupancy(states[i])
    ensures forall k :: 0 <= k < |states[i].popped| ==> states[i].popped[k] == Some(states[i].pushed[k])
  {
    RunKeepsInv(states, labels, i);
    WrappedDifference(states[i]);
  }

  /**
   `push` fails exactly when the ring is full as it loads `head`; `pop` exactly when it is empty as
   it loads `tail`.
   */
  lemma FailsIff<T(!new)>(states: seq<State<T>>, labels: seq<Label<T>>, i: nat)
    requires IsRun(states, labels) && i < |labels|
    ensures labels[i].PushLoadHead? ==>
      (states[i + 1].producer.Out? <==> Occupancy(states[i]) == |states[i].slots|)
    ensures labels[i].PopLoadTail? ==>
      (states[i + 1].consumer.Idle? <==> Occupancy(states[i]) == 0)
  {
    RunKeepsInv(states, labels, i);
    WrappedDifference(states[i]);
  }

  /** A call of `push` of `v` has pushed nothing until it returns, and then has pushed `v` or returns it. */
  lemma {:induction false} PushProgress<T(!new)>(states: seq<State<T>>, labels: seq<Label<T>>, v: T, i: nat, k: nat)
    requires IsRun(states, labels) && i < k <= |labels| && labels[i] == PushLoadTail(v)
    requires forall j :: i < j < k ==> !states[j].producer.Out?
    ensures var p, pushed := states[k].producer, states[i].pushed;
      if p.Out? then
        states[k].pushed == (if p.ret.Pushed? then pushed + [v] else pushed)
        && (p.ret.Rejected? ==> labels[k - 1] == PushLoadHead && p.ret.v == v)
      else p.v == v && states[k].pushed == pushed
    decreases k
  {
    assert IsStep(states[k - 1], labels[k - 1], states[k]);
    if k > i + 1 { PushProgress(states, labels, v, i, k - 1); }
  }

  /**
   A call of `push` either succeeds and has pushed its value, once, or gives the value back, has
   pushed nothing and saw the ring full.
   */
  lemma PushReturns<T(!new)>(states: seq<State<T>>, labels: seq<Label<T>>, v: T, i: nat, k: nat)
    requires IsRun(states, labels) && i < k <= |labels| && labels[i] == PushLoadTail(v)
    requires (forall j :: i < j < k ==> !states[j].producer.Out?) && states[k].producer.Out?
    ensures match states[k].producer.ret
      case Pushed => states[k].pushed == states[i].pushed + [v]
      case Rejected(v') =>
        v' == v && states[k].pushed == states[i].pushed && Occupancy(states[k - 1]) == |states[k - 1].slots|
  {
    PushProgress(states, labels, v, i, k);
    if states[k].producer.ret.Rejected? { FailsIff(states, labels, k - 1); }
  }

  lemma {:induction false} PopProgress<T(!new)>(states: seq<State<T>>, labels: seq<Label<T>>, i: nat, k: nat)
    requires IsRun(states, labels) && i < k <= |labels| && labels[i] == PopLoadHead
    requires forall j :: i < j < k ==> !states[j].consumer.Idle?
    ensures var c, popped := states[k].consumer, states[i].popped;
      if c.Idle? then
        states[k].popped == (if c.ret.Some? then popped + [c.ret] else popped)
        && (c.ret.None? ==> labels[k - 1] == PopLoadTail)
      else states[k].popped == popped
    decreases k
  {
    assert IsStep(states[k - 1], labels[k - 1], states[k]);
    if k > i + 1 {
      PopProgress(states, labels, i, k - 1);
      RunKeepsInv(states, labels, k - 1);
    }
  }

  /** A call of `pop` either returns a value and has popped it, once, or has popped nothing and saw the ring empty. */
  lemma PopReturns<T(!new)>(states: seq<State<T>>, labels: seq<Label<T>>, i: nat, k: nat)
    requires IsRun(states, labels) && i < k <= |labels| && labels[i] == PopLoadHead
    requires (forall j :: i < j < k ==> !states[j].consumer.Idle?) && states[k].consumer.Idle?
    ensures match states[k].consumer.ret
      case Some(v) => states[k].popped == states[i].popped + [Some(v)]
      case None => states[k].popped == states[i].popped && Occupancy(states[k - 1]) == 0
  {
    PopProgress(states, labels, i, k);
    if states[k].consumer.ret.None? { FailsIff(states, labels, k - 1); }
  }

  /** The producer's slot, from its check until its store, is never the consumer's. */
  lemma SlotsAreExclusive<T(!new)>(states: seq<State<T>>, labels: seq<Label<T>>, i: nat)
    requires IsRun(states, labels) && i < |states|
    requires states[i].producer.NotFull? || states[i].producer.Written?
    requires states[i].consumer.NotEmpty? || states[i].consumer.Taken?
    ensures |states[i].slots| > 0
    ensures Index(states[i].producer.tail, |states[i].slots|) != Index(states[i].consumer.head, |states[i].slots|)
  {
    var s := states[i];
    RunKeepsInv(states, labels, i);
    IndexOfWrapped(|s.pushed|, |s.slots|);
    IndexOfWrapped(|s.popped|, |s.slots|);
    IndexApart(|s.popped|, |s.pushed|, |s.slots|);
  }
}
