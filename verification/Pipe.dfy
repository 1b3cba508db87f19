/** The ring buffer of a pipe: positions and length over one page of bytes. */
module PipeBuffer {
  import opened Common

  const PIPE_BUF_SIZE: nat := 4096

  /** The `len` bytes that start at `pos` and wrap at the end of the page. */
  ghost function Window(data: seq<Byte>, pos: nat, len: nat): (w: seq<Byte>)
    requires |data| == PIPE_BUF_SIZE
    ensures |w| == len
  {
    seq(len, i requires 0 <= i < len => data[(pos + i) % PIPE_BUF_SIZE])
  }

  lemma WrapTwice(a: nat, b: nat)
    ensures (a % PIPE_BUF_SIZE + b) % PIPE_BUF_SIZE == (a + b) % PIPE_BUF_SIZE
  {
  }

  lemma SlotsApart(pos: nat, i: nat, j: nat)
    requires i < j < PIPE_BUF_SIZE
    ensures (pos + i) % PIPE_BUF_SIZE != (pos + j) % PIPE_BUF_SIZE
  {
  }

  /** Advancing the read position drops the oldest bytes. */
  lemma WindowDrop(data: seq<Byte>, pos: nat, len: nat, n: nat)
    requires |data| == PIPE_BUF_SIZE && n <= len
    ensures Window(data, (pos + n) % PIPE_BUF_SIZE, len - n) == Window(data, pos, len)[n..]
  {
    forall i | 0 <= i < len - n
      ensures Window(data, (pos + n) % PIPE_BUF_SIZE, len - n)[i] == Window(data, pos, len)[n..][i]
    {
      WrapTwice(pos + n, i);
    }
  }

  /** Storing at the write position appends a byte. */
  lemma WindowAppend(data: seq<Byte>, pos: nat, len: nat, b: Byte)
    requires |data| == PIPE_BUF_SIZE && len < PIPE_BUF_SIZE
    ensures Window(data[(pos + len) % PIPE_BUF_SIZE := b], pos, len + 1) == Window(data, pos, len) + [b]
  {
    var after := Window(data[(pos + len) % PIPE_BUF_SIZE := b], pos, len + 1);
    forall i | 0 <= i < len + 1 ensures after[i] == (Window(data, pos, len) + [b])[i] {
      if i < len { SlotsApart(pos, i, len); }
    }
  }

  class PipeRing {
    var readPos: nat
    var writePos: nat
    var len: nat

    ghost predicate Valid()
      reads this
    {
      && readPos < PIPE_BUF_SIZE && len <= PIPE_BUF_SIZE
      && writePos == (readPos + len) % PIPE_BUF_SIZE
    }

    /** The buffered bytes, oldest first. */
    ghost function Contents(data: array<Byte>): (q: seq<Byte>)
      requires Valid() && data.Length == PIPE_BUF_SIZE
      reads this, data
      ensures |q| == len
    {
      Window(data[..], readPos, len)
    }

    constructor ()
      ensures Valid() && len == 0
    {
      readPos, writePos, len := 0, 0, 0;
    }

    /** Copies the oldest bytes out. */
    method ReadInto(data: array<Byte>, dst: array<Byte>) returns (n: nat)
      requires Valid() && data.Length == PIPE_BUF_SIZE && data != dst
      modifies this, dst
      ensures Valid()
      ensures n == Min(dst.Length, old(len))
      ensures dst[..n] == old(Contents(data))[..n] && dst[n..] == old(dst[n..])
      ensures Contents(data) == old(Contents(data))[n..]
    {
      n := Min(dst.Length, len);
      ghost var contents := Contents(data);
      var i := 0;
      while i < n
        invariant 0 <= i <= n
        invariant forall k :: 0 <= k < i ==> dst[k] == contents[k]
        invariant forall k :: n <= k < dst.Length ==> dst[k] == old(dst[k])
        invariant readPos == old(readPos) && len == old(len) && writePos == old(writePos)
      {
        dst[i] := data[(readPos + i) % PIPE_BUF_SIZE];
        i := i + 1;
      }
      WindowDrop(data[..], readPos, len, n);
      WrapTwice(readPos + n, len - n);
      readPos := (readPos + n) % PIPE_BUF_SIZE;
      len := len - n;
    }

    /** Stores a byte `i` places behind the buffered ones. */
    method PutByte(data: array<Byte>, i: nat, b: Byte)
      requires Valid() && data.Length == PIPE_BUF_SIZE && len + i < PIPE_BUF_SIZE
      modifies data
      ensures Window(data[..], readPos, len + i + 1) == old(Window(data[..], readPos, len + i)) + [b]
    {
      WrapTwice(readPos + len, i);
      WindowAppend(data[..], readPos, len + i, b);
      ghost var after := data[..][(writePos + i) % PIPE_BUF_SIZE := b];
      data[(writePos + i) % PIPE_BUF_SIZE] := b;
      assert data[..] == after;
    }

    /** Appends as many bytes as fit. */
    method WriteFrom(data: array<Byte>, src: seq<Byte>) returns (n: nat)
      requires Valid() && data.Length == PIPE_BUF_SIZE
      modifies this, data
      ensures Valid()
      ensures n == Min(|src|, PIPE_BUF_SIZE - old(len))
      ensures Contents(data) == old(Contents(data)) + src[..n]
    {
      n := Min(|src|, PIPE_BUF_SIZE - len);
      var i := 0;
      while i < n
        invariant 0 <= i <= n
        invariant readPos == old(readPos) && len == old(len) && writePos == old(writePos)
        invariant Window(data[..], readPos, len + i) == old(Contents(data)) + src[..i]
      {
        PutByte(data, i, src[i]);
        assert src[..i + 1] == src[..i] + [src[i]];
        i := i + 1;
      }
      WrapTwice(readPos + len, n);
      writePos := (writePos + n) % PIPE_BUF_SIZE;
      len := len + n;
    }
  }
}

/**
 The sleep and wake protocol around the ring, with one reader thread, one writer
 thread, and closes of either end by anyone at any time. Each locked section and
 each atomic access is one step.

 Generation counters are kept as unbounded numbers; the protocol only ever
 compares their low 32 bits.
 */
module PipeProtocol {
  import opened Bits
  import opened Common
  import opened PipeBuffer

  const EPIPE: int := -32

  datatype Side = Reader | Writer

  function Opposite(side: Side): Side {
    if side.Reader? then Writer else Reader
  }

  /** The thread of one side, inside `pipe_read` or `pipe_write`. */
  datatype Pc =
    | Out(ret: int)
    | Start
    | Sampled(snap: nat)
    | Stuck(snap: nat)
    | Blocking(snap: nat)
    | Asleep
    | Bump(n: nat)
    | Wake(n: nat)

  /** How far the last close of an end has come; `Quiet` is a close that runs no release hook. */
  datatype Closer = Live | CloseBump | CloseWake | Done | Quiet

  /** `gen` is the counter that this side samples; `size` is the length of the caller's buffer. */
  datatype End = End(pc: Pc, gen: nat, refs: nat, closer: Closer, size: nat)

  datatype State = State(
    ring: seq<Byte>,
    reader: End,
    writer: End,
    buf: seq<Byte>,
    sent: seq<Byte>,
    received: seq<Byte>)

  datatype Label =
    | BeginRead(size: nat)
    | BeginWrite(bytes: seq<Byte>)
    | Sample(side: Side)
    | Transfer(side: Side)
    | CheckPeer(side: Side)
    | Block(side: Side)
    | BumpPeer(side: Side)
    | WakePeer(side: Side)
    | Dup(side: Side)
    | Close(side: Side)
    | CloseQuietly(side: Side)
    | BumpAfterClose(side: Side)
    | WakeAfterClose(side: Side)

  function Mine(s: State, side: Side): End {
    if side.Reader? then s.reader else s.writer
  }

  function Peer(s: State, side: Side): End {
    Mine(s, Opposite(side))
  }

  function Set(s: State, side: Side, e: End): State {
    if side.Reader? then s.(reader := e) else s.(writer := e)
  }

  function SetPc(s: State, side: Side, pc: Pc): State {
    Set(s, side, Mine(s, side).(pc := pc))
  }

  function Word32(x: nat): nat { x % TWO_32 }

  predicate Enabled(s: State, l: Label) {
    match l
    case BeginRead(size) => s.reader.pc.Out?
    case BeginWrite(bytes) => s.writer.pc.Out?
    case Sample(side) => Mine(s, side).pc.Start?
    case Transfer(side) => Mine(s, side).pc.Sampled?
    case CheckPeer(side) => Mine(s, side).pc.Stuck?
    case Block(side) => Mine(s, side).pc.Blocking?
    case BumpPeer(side) => Mine(s, side).pc.Bump?
    case WakePeer(side) => Mine(s, side).pc.Wake?
    case Dup(side) => Mine(s, side).refs > 0
    case Close(side) => Mine(s, side).refs > 0
    case CloseQuietly(side) => Mine(s, side).refs > 0
    case BumpAfterClose(side) => Mine(s, side).closer.CloseBump?
    case WakeAfterClose(side) => Mine(s, side).closer.CloseWake?
  }

  function DoBeginWrite(s: State, bytes: seq<Byte>): State {
    if s.reader.refs == 0 then SetPc(s, Writer, Out(EPIPE))
    else s.(writer := s.writer.(pc := Start, size := |bytes|), buf := bytes)
  }

  /** The locked section of `pipe_read`: a reader that took nothing looks for writers next. */
  function DoRead(s: State): State
    requires s.reader.pc.Sampled?
  {
    var n := Min(s.reader.size, |s.ring|);
    if n > 0 then
      SetPc(s, Reader, if |s.ring| == PIPE_BUF_SIZE then Bump(n) else Out(n))
        .(ring := s.ring[n..], received := s.received + s.ring[..n])
    else
      SetPc(s, Reader, Stuck(s.reader.pc.snap))
  }

  function DoWrite(s: State): State
    requires s.writer.pc.Sampled? && |s.ring| <= PIPE_BUF_SIZE
  {
    var n := Min(|s.buf|, PIPE_BUF_SIZE - |s.ring|);
    if n > 0 then
      SetPc(s, Writer, if |s.ring| == 0 then Bump(n) else Out(n))
        .(ring := s.ring + s.buf[..n], sent := s.sent + s.buf[..n])
    else
      SetPc(s, Writer, Stuck(s.writer.pc.snap))
  }

  /** `reader_step_when_empty` and `writer_step_when_full`. */
  function DoCheckPeer(s: State, side: Side): State
    requires Mine(s, side).pc.Stuck?
  {
    SetPc(s, side,
      if Peer(s, side).refs > 0 then Blocking(Mine(s, side).pc.snap)
      else if side.Reader? then Out(0) else Out(EPIPE))
  }

  /** `thread_block_if`: the counter is compared under the queue lock. */
  function DoBlock(s: State, side: Side): State
    requires Mine(s, side).pc.Blocking?
  {
    SetPc(s, side, if Word32(Mine(s, side).gen) == Word32(Mine(s, side).pc.snap) then Asleep else Start)
  }

  function Bumped(e: End): End { e.(gen := e.gen + 1) }

  function Woken(e: End): End { if e.pc.Asleep? then e.(pc := Start) else e }

  function DoBumpPeer(s: State, side: Side): State
    requires Mine(s, side).pc.Bump?
  {
    Set(SetPc(s, side, Wake(Mine(s, side).pc.n)), Opposite(side), Bumped(Peer(s, side)))
  }

  function DoWakePeer(s: State, side: Side): State
    requires Mine(s, side).pc.Wake?
  {
    Set(SetPc(s, side, Out(Mine(s, side).pc.n)), Opposite(side), Woken(Peer(s, side)))
  }

  function Dropped(e: End, last: Closer): End
    requires e.refs > 0
  {
    e.(refs := e.refs - 1, closer := if e.refs == 1 then last else e.closer)
  }

  function DoBumpAfterClose(s: State, side: Side): State {
    Set(Set(s, side, Mine(s, side).(closer := CloseWake)), Opposite(side), Bumped(Peer(s, side)))
  }

  function DoWakeAfterClose(s: State, side: Side): State {
    Set(Set(s, side, Mine(s, side).(closer := Done)), Opposite(side), Woken(Peer(s, side)))
  }

  function Next(s: State, l: Label): State
    requires Enabled(s, l) && |s.ring| <= PIPE_BUF_SIZE
  {
    match l
    case BeginRead(size) => s.(reader := s.reader.(pc := Start, size := size))
    case BeginWrite(bytes) => DoBeginWrite(s, bytes)
    case Sample(side) => SetPc(s, side, Sampled(Mine(s, side).gen))
    case Transfer(side) => if side.Reader? then DoRead(s) else DoWrite(s)
    case CheckPeer(side) => DoCheckPeer(s, side)
    case Block(side) => DoBlock(s, side)
    case BumpPeer(side) => DoBumpPeer(s, side)
    case WakePeer(side) => DoWakePeer(s, side)
    case Dup(side) => Set(s, side, Mine(s, side).(refs := Mine(s, side).refs + 1))
    case Close(side) => Set(s, side, Dropped(Mine(s, side), CloseBump))
    case CloseQuietly(side) => Set(s, side, Dropped(Mine(s, side), Quiet))
    case BumpAfterClose(side) => DoBumpAfterClose(s, side)
    case WakeAfterClose(side) => DoWakeAfterClose(s, side)
  }

  // Invariants

  /** The ring has something for this side: data for the reader, space for the writer. */
  predicate Edge(s: State, side: Side) {
    if side.Reader? then |s.ring| > 0 else |s.ring| < PIPE_BUF_SIZE
  }

  function Units(b: bool): nat { if b then 1 else 0 }

  /**
   From sampling its counter until it decides to block, a side sees at most three bumps: one
   already under way, one for the next empty or full edge, and one for the last close.
   */
  predicate FewBumps(me: End, peer: End, edge: bool, snap: nat) {
    && snap <= me.gen
    && me.gen - snap + Units(peer.pc.Bump?) + Units(!edge) + Units(peer.closer.Live? || peer.closer.CloseBump?) <= 3
  }

  /** The peer's last close ran, or runs, its release hook. */
  predicate Gone(peer: End) {
    peer.refs == 0 && !peer.closer.Quiet?
  }

  /** What one side may rely on, given whether the ring has something for it. */
  predicate SideInv(me: End, peer: End, edge: bool) {
    match me.pc
    case Sampled(snap) => FewBumps(me, peer, edge, snap)
    case Stuck(snap) =>
      && FewBumps(me, peer, edge, snap)
      && (edge && me.size > 0 ==> peer.pc.Bump? || me.gen > snap)
    case Blocking(snap) =>
      && FewBumps(me, peer, edge, snap)
      && (edge && me.size > 0 ==> peer.pc.Bump? || me.gen > snap)
      && (Gone(peer) ==> peer.closer.CloseBump? || me.gen > snap)
    case Asleep =>
      && (edge && me.size > 0 ==> peer.pc.Bump? || peer.pc.Wake?)
      && (Gone(peer) ==> peer.closer.CloseBump? || peer.closer.CloseWake?)
    case _ => true
  }

  /** Every byte sent is received or buffered, in order. */
  predicate RingInv(s: State) {
    && |s.ring| <= PIPE_BUF_SIZE
    && s.sent == s.received + s.ring
    && |s.buf| == s.writer.size
  }

  predicate EndInv(e: End) {
    e.closer.Live? <==> e.refs > 0
  }

  predicate Inv(s: State) {
    && RingInv(s) && EndInv(s.reader) && EndInv(s.writer)
    && SideInv(s.reader, s.writer, Edge(s, Reader))
    && SideInv(s.writer, s.reader, Edge(s, Writer))
  }

  // Each step keeps the invariant

  lemma ReadKeepsInv(s: State)
    requires Inv(s) && s.reader.pc.Sampled?
    ensures Inv(DoRead(s))
  {
    var n := Min(s.reader.size, |s.ring|);
    assert s.ring == s.ring[..n] + s.ring[n..];
  }

  lemma WriteKeepsInv(s: State)
    requires Inv(s) && s.writer.pc.Sampled?
    ensures Inv(DoWrite(s))
  {
  }

  /** Within three bumps, the low 32 bits tell whether the counter moved. */
  lemma WordsTellApart(me: End, peer: End, edge: bool)
    requires SideInv(me, peer, edge) && me.pc.Blocking?
    ensures Word32(me.gen) == Word32(me.pc.snap) <==> me.gen == me.pc.snap
  {
  }

  lemma BlockKeepsInv(s: State, side: Side)
    requires Inv(s) && Mine(s, side).pc.Blocking?
    ensures Inv(DoBlock(s, side))
  {
    WordsTellApart(Mine(s, side), Peer(s, side), Edge(s, side));
  }

  /** A bump that was under way, seen by the side it is for. */
  lemma BumpKeepsSide(me: End, peer: End, peer': End, edge: bool)
    requires SideInv(me, peer, edge) && peer.refs == peer'.refs
    requires
      || (peer.pc.Bump? && peer' == peer.(pc := Wake(peer.pc.n)))
      || (peer.closer.CloseBump? && peer' == peer.(closer := CloseWake))
    ensures SideInv(Bumped(me), peer', edge)
  {
  }

  /** A wake that was under way, seen by the side it is for. */
  lemma WakeKeepsSide(me: End, peer: End, peer': End, edge: bool)
    requires SideInv(me, peer, edge) && peer.refs == peer'.refs && EndInv(peer)
    requires
      || (peer.pc.Wake? && peer' == peer.(pc := Out(peer.pc.n)))
      || (peer.closer.CloseWake? && peer' == peer.(closer := Done))
    ensures SideInv(Woken(me), peer', edge)
  {
  }

  /** A close of the peer's end. */
  lemma CloseKeepsSide(me: End, peer: End, last: Closer, edge: bool)
    requires SideInv(me, peer, edge) && EndInv(peer) && peer.refs > 0 && (last.CloseBump? || last.Quiet?)
    ensures SideInv(me, Dropped(peer, last), edge)
  {
  }

  /** The peer's counter and sleep do not matter to this side, nor does its own close. */
  lemma OtherKeepsSide(me: End, me': End, peer: End, peer': End, edge: bool)
    requires SideInv(me, peer, edge) && EndInv(me)
    requires me'.gen == me.gen && me'.size == me.size
    requires (me'.pc == me.pc || me'.pc.Wake? || me'.pc.Out? || me'.pc.Start?)
    requires peer'.refs == peer.refs && peer'.closer == peer.closer
    requires (peer'.pc == peer.pc || (peer.pc.Asleep? && peer'.pc.Start?))
    ensures SideInv(me', peer', edge)
  {
  }

  lemma BumpPeerKeepsInv(s: State, side: Side)
    requires Inv(s) && Mine(s, side).pc.Bump?
    ensures Inv(DoBumpPeer(s, side))
  {
    var me, peer := Mine(s, side), Peer(s, side);
    var me' := me.(pc := Wake(me.pc.n));
    BumpKeepsSide(peer, me, me', Edge(s, Opposite(side)));
    OtherKeepsSide(me, me', peer, Bumped(peer), Edge(s, side));
  }

  lemma WakePeerKeepsInv(s: State, side: Side)
    requires Inv(s) && Mine(s, side).pc.Wake?
    ensures Inv(DoWakePeer(s, side))
  {
    var me, peer := Mine(s, side), Peer(s, side);
    var me' := me.(pc := Out(me.pc.n));
    WakeKeepsSide(peer, me, me', Edge(s, Opposite(side)));
    OtherKeepsSide(me, me', peer, Woken(peer), Edge(s, side));
  }

  lemma CloseKeepsInv(s: State, side: Side, last: Closer)
    requires Inv(s) && Mine(s, side).refs > 0 && (last.CloseBump? || last.Quiet?)
    ensures Inv(Set(s, side, Dropped(Mine(s, side), last)))
  {
    var me, peer := Mine(s, side), Peer(s, side);
    CloseKeepsSide(peer, me, last, Edge(s, Opposite(side)));
    OtherKeepsSide(me, Dropped(me, last), peer, peer, Edge(s, side));
  }

  lemma BumpAfterCloseKeepsInv(s: State, side: Side)
    requires Inv(s) && Mine(s, side).closer.CloseBump?
    ensures Inv(DoBumpAfterClose(s, side))
  {
    var me, peer := Mine(s, side), Peer(s, side);
    var me' := me.(closer := CloseWake);
    BumpKeepsSide(peer, me, me', Edge(s, Opposite(side)));
    OtherKeepsSide(me, me', peer, Bumped(peer), Edge(s, side));
  }

  lemma WakeAfterCloseKeepsInv(s: State, side: Side)
    requires Inv(s) && Mine(s, side).closer.CloseWake?
    ensures Inv(DoWakeAfterClose(s, side))
  {
    var me, peer := Mine(s, side), Peer(s, side);
    var me' := me.(closer := Done);
    WakeKeepsSide(peer, me, me', Edge(s, Opposite(side)));
    OtherKeepsSide(me, me', peer, Woken(peer), Edge(s, side));
  }

  /** A step by one thread that leaves the ring and every counter as they are. */
  lemma SetPcKeepsInv(s: State, side: Side, pc: Pc)
    requires Inv(s) && SideInv(Mine(s, side).(pc := pc), Peer(s, side), Edge(s, side))
    requires !Mine(s, side).pc.Bump? && !Mine(s, side).pc.Wake? && !pc.Bump?
    ensures Inv(SetPc(s, side, pc))
  {
  }

  lemma BeginWriteKeepsInv(s: State, bytes: seq<Byte>)
    requires Inv(s) && s.writer.pc.Out?
    ensures Inv(DoBeginWrite(s, bytes))
  {
  }

  lemma DupKeepsInv(s: State, side: Side)
    requires Inv(s) && Mine(s, side).refs > 0
    ensures Inv(Set(s, side, Mine(s, side).(refs := Mine(s, side).refs + 1)))
  {
  }

  lemma StepKeepsInv(s: State, l: Label)
    requires Inv(s) && Enabled(s, l)
    ensures Inv(Next(s, l))
  {
    match l
    case BeginRead(size) =>
    case BeginWrite(bytes) => BeginWriteKeepsInv(s, bytes);
    case Sample(side) => SetPcKeepsInv(s, side, Sampled(Mine(s, side).gen));
    case Transfer(side) => if side.Reader? { ReadKeepsInv(s); } else { WriteKeepsInv(s); }
    case CheckPeer(side) =>
      SetPcKeepsInv(s, side, Mine(DoCheckPeer(s, side), side).pc);
    case Block(side) => BlockKeepsInv(s, side);
    case BumpPeer(side) => BumpPeerKeepsInv(s, side);
    case WakePeer(side) => WakePeerKeepsInv(s, side);
    case Dup(side) => DupKeepsInv(s, side);
    case Close(side) => CloseKeepsInv(s, side, CloseBump);
    case CloseQuietly(side) => CloseKeepsInv(s, side, Quiet);
    case BumpAfterClose(side) => BumpAfterCloseKeepsInv(s, side);
    case WakeAfterClose(side) => WakeAfterCloseKeepsInv(s, side);
  }

  // Runs

  /** A fresh pipe: each end has one descriptor and nobody is in a call. */
  predicate Init(s: State) {
    && s.ring == [] && s.sent == [] && s.received == [] && s.buf == []
    && s.reader.pc.Out? && s.writer.pc.Out? && s.reader.size == 0 && s.writer.size == 0
    && s.reader.refs == 1 && s.writer.refs == 1 && s.reader.closer.Live? && s.writer.closer.Live?
  }

  const FRESH: State := State([], End(Out(0), 0, 1, Live, 0), End(Out(0), 0, 1, Live, 0), [], [], [])

  ghost predicate IsRun(states: seq<State>, labels: seq<Label>) {
    && |states| == |labels| + 1
    && Init(states[0])
    && forall i :: 0 <= i < |labels| ==> IsStep(states[i], labels[i], states[i + 1])
  }

  predicate IsStep(s: State, l: Label, s': State) {
    Enabled(s, l) && |s.ring| <= PIPE_BUF_SIZE && s' == Next(s, l)
  }

  lemma {:induction false} RunKeepsInv(states: seq<State>, labels: seq<Label>, i: nat)
    requires IsRun(states, labels) && i < |states|
    ensures Inv(states[i])
  {
    if i > 0 {
      RunKeepsInv(states, labels, i - 1);
      assert IsStep(states[i - 1], labels[i - 1], states[i]);
      StepKeepsInv(states[i - 1], labels[i - 1]);
    }
  }

  /** A wake of this side by the peer's thread, or by the last close of the peer's end, is on its way. */
  predicate WakePending(s: State, side: Side) {
    var peer := Peer(s, side);
    peer.pc.Bump? || peer.pc.Wake? || peer.closer.CloseBump? || peer.closer.CloseWake?
  }

  /**
   No lost wakeup: a thread asleep although the ring has something for it, or although the
   peer's end was closed through its release hook, has a wake on its way.
   */
  lemma NoLostWakeup(states: seq<State>, labels: seq<Label>, i: nat, side: Side)
    requires IsRun(states, labels) && i < |states| && Mine(states[i], side).pc.Asleep?
    ensures Edge(states[i], side) && Mine(states[i], side).size > 0 ==> WakePending(states[i], side)
    ensures Gone(Peer(states[i], side)) ==> WakePending(states[i], side)
  {
    RunKeepsInv(states, labels, i);
  }

  /** The check under the queue lock goes to sleep exactly when nothing was bumped since the sample. */
  lemma WrapCannotFool(states: seq<State>, labels: seq<Label>, i: nat, side: Side)
    requires IsRun(states, labels) && i < |labels| && labels[i] == Block(side)
    ensures Mine(states[i], side).pc.Blocking?
    ensures Mine(states[i + 1], side).pc.Asleep? <==> Mine(states[i], side).gen == Mine(states[i], side).pc.snap
  {
    RunKeepsInv(states, labels, i);
    assert IsStep(states[i], labels[i], states[i + 1]);
    WordsTellApart(Mine(states[i], side), Peer(states[i], side), Edge(states[i], side));
  }

  /** The reader receives the sent bytes in order, each once; at most one page of them is buffered. */
  lemma BytesAreConserved(states: seq<State>, labels: seq<Label>, i: nat)
    requires IsRun(states, labels) && i < |states|
    ensures states[i].sent == states[i].received + states[i].ring && |states[i].ring| <= PIPE_BUF_SIZE
  {
    RunKeepsInv(states, labels, i);
  }

  // Calls

  /** In no state between `i` and `k` is the side out of the call that it began at `i`. */
  predicate InCall(states: seq<State>, side: Side, i: nat, k: nat)
    requires k <= |states|
  {
    forall m :: i < m < k ==> !Mine(states[m], side).pc.Out?
  }

  /** The call that began at `i` went through its locked section at step `m`, before state `k`. */
  predicate Transferred(labels: seq<Label>, side: Side, i: nat, m: nat, k: nat) {
    i < m < k <= |labels| && labels[m] == Transfer(side)
  }

  /** The other side had no descriptor left when the call checked, just before state `k`. */
  predicate FoundPeerGone(states: seq<State>, labels: seq<Label>, side: Side, k: nat) {
    0 < k <= |labels| && k <= |states| && labels[k - 1] == CheckPeer(side) && Peer(states[k - 1], side).refs == 0
  }

  /** The step is one of the side's own thread. */
  predicate IsOwn(l: Label, side: Side) {
    match l
    case BeginRead(_) => side.Reader?
    case BeginWrite(_) => side.Writer?
    case Sample(x) => x == side
    case Transfer(x) => x == side
    case CheckPeer(x) => x == side
    case Block(x) => x == side
    case BumpPeer(x) => x == side
    case WakePeer(x) => x == side
    case _ => false
  }

  /** Other steps do not move a thread, except that they may wake it, and do not touch its data. */
  lemma OtherStep(s: State, l: Label, side: Side)
    requires Enabled(s, l) && |s.ring| <= PIPE_BUF_SIZE && !IsOwn(l, side)
    ensures var s' := Next(s, l);
      && Mine(s', side).size == Mine(s, side).size
      && (Mine(s', side).pc == Mine(s, side).pc || (Mine(s, side).pc.Asleep? && Mine(s', side).pc.Start?))
      && (if side.Reader? then s'.received == s.received else s'.sent == s.sent && s'.buf == s.buf)
  {
  }

  /** Where a read stands: `m` is its last locked section, if it went through one. */
  predicate ReadStands(states: seq<State>, labels: seq<Label>, size: nat, i: nat, k: nat, m: nat)
    requires i < k <= |labels| && k < |states|
  {
    var before, now := states[i].received, states[k].received;
    && states[k].reader.size == size
    && match states[k].reader.pc
       case Stuck(_) => now == before && Transferred(labels, Reader, i, m, k) && Min(size, |states[m].ring|) == 0
       case Blocking(_) => now == before && Transferred(labels, Reader, i, m, k) && Min(size, |states[m].ring|) == 0
       case Bump(n) => Took(states, labels, size, i, k, m, n) && n > 0
       case Wake(n) => Took(states, labels, size, i, k, m, n) && n > 0
       case Out(r) => Took(states, labels, size, i, k, m, r) && (r == 0 ==> FoundPeerGone(states, labels, Reader, k))
       case _ => now == before
  }

  /** The read has received the first `n` bytes that the ring held at step `m`, as many as asked for and there. */
  predicate Took(states: seq<State>, labels: seq<Label>, size: nat, i: nat, k: nat, m: nat, n: int)
    requires i < k <= |labels| && k < |states|
  {
    && Transferred(labels, Reader, i, m, k) && n == Min(size, |states[m].ring|)
    && states[k].received == states[i].received + states[m].ring[..n]
  }

  lemma ReadStep(states: seq<State>, labels: seq<Label>, size: nat, i: nat, k: nat, m: nat) returns (m': nat)
    requires i < k - 1 < k <= |labels| && k < |states| && IsStep(states[k - 1], labels[k - 1], states[k])
    requires IsOwn(labels[k - 1], Reader) && !states[k - 1].reader.pc.Out?
    requires ReadStands(states, labels, size, i, k - 1, m)
    ensures ReadStands(states, labels, size, i, k, m')
  {
    m' := if labels[k - 1] == Transfer(Reader) then k - 1 else m;
    assert states[i].received + [] == states[i].received;
  }

  lemma {:induction false} ReadProgress(states: seq<State>, labels: seq<Label>, size: nat, i: nat, k: nat)
    returns (m: nat)
    requires IsRun(states, labels) && i < k <= |labels| && labels[i] == BeginRead(size) && InCall(states, Reader, i, k)
    ensures ReadStands(states, labels, size, i, k, m)
    decreases k
  {
    assert IsStep(states[k - 1], labels[k - 1], states[k]);
    if k == i + 1 {
      m := 0;
    } else {
      m := ReadProgress(states, labels, size, i, k - 1);
      if IsOwn(labels[k - 1], Reader) {
        m := ReadStep(states, labels, size, i, k, m);
      } else {
        OtherStep(states[k - 1], labels[k - 1], Reader);
      }
    }
  }

  /**
   What a read returns: the number of bytes it received, which are the oldest in the ring, as many as
   there were and as it asked for. It returns 0 only if it found none and then found no writer.
   */
  lemma ReadReturns(states: seq<State>, labels: seq<Label>, size: nat, i: nat, k: nat) returns (m: nat)
    requires IsRun(states, labels) && i < k <= |labels| && labels[i] == BeginRead(size)
    requires InCall(states, Reader, i, k) && states[k].reader.pc.Out?
    ensures Took(states, labels, size, i, k, m, states[k].reader.pc.ret)
    ensures states[k].reader.pc.ret == |states[k].received| - |states[i].received|
    ensures states[k].reader.pc.ret == 0 ==> FoundPeerGone(states, labels, Reader, k)
    ensures states[k].reader.pc.ret == 0 && size > 0 ==> states[m].ring == []
  {
    m := ReadProgress(states, labels, size, i, k);
  }

  /** Where a write stands. */
  predicate WriteStands(states: seq<State>, labels: seq<Label>, bytes: seq<Byte>, i: nat, k: nat, m: nat)
    requires i < k <= |labels| && k < |states|
  {
    match states[k].writer.pc
    case Bump(n) => Gave(states, labels, bytes, i, k, m, n)
    case Wake(n) => Gave(states, labels, bytes, i, k, m, n)
    case Out(r) => if r == EPIPE then Refused(states, labels, i, k) else Gave(states, labels, bytes, i, k, m, r)
    case _ => states[k].sent == states[i].sent && states[k].buf == bytes
  }

  /** The write has sent its first `n` bytes, as many as it has and as there was room for at step `m`. */
  predicate Gave(states: seq<State>, labels: seq<Label>, bytes: seq<Byte>, i: nat, k: nat, m: nat, n: int)
    requires i < k <= |labels| && k < |states|
  {
    && Transferred(labels, Writer, i, m, k) && |states[m].ring| <= PIPE_BUF_SIZE
    && 0 < n == Min(|bytes|, PIPE_BUF_SIZE - |states[m].ring|) && states[k].sent == states[i].sent + bytes[..n]
  }

  /** The write has sent nothing and found no reader, as it began or when it had found the ring full. */
  predicate Refused(states: seq<State>, labels: seq<Label>, i: nat, k: nat)
    requires i < k <= |labels| && k < |states|
  {
    && states[k].sent == states[i].sent
    && (FoundPeerGone(states, labels, Writer, k) || (k == i + 1 && states[i].reader.refs == 0))
  }

  lemma WriteStep(states: seq<State>, labels: seq<Label>, bytes: seq<Byte>, i: nat, k: nat, m: nat) returns (m': nat)
    requires i < k - 1 < k <= |labels| && k < |states| && IsStep(states[k - 1], labels[k - 1], states[k])
    requires IsOwn(labels[k - 1], Writer) && !states[k - 1].writer.pc.Out?
    requires WriteStands(states, labels, bytes, i, k - 1, m)
    ensures WriteStands(states, labels, bytes, i, k, m')
  {
    m' := if labels[k - 1] == Transfer(Writer) then k - 1 else m;
  }

  lemma {:induction false} WriteProgress(states: seq<State>, labels: seq<Label>, bytes: seq<Byte>, i: nat, k: nat)
    returns (m: nat)
    requires IsRun(states, labels) && i < k <= |labels|
    requires labels[i] == BeginWrite(bytes) && InCall(states, Writer, i, k)
    ensures WriteStands(states, labels, bytes, i, k, m)
    decreases k
  {
    assert IsStep(states[k - 1], labels[k - 1], states[k]);
    if k == i + 1 {
      m := 0;
    } else {
      m := WriteProgress(states, labels, bytes, i, k - 1);
      if IsOwn(labels[k - 1], Writer) {
        m := WriteStep(states, labels, bytes, i, k, m);
      } else {
        OtherStep(states[k - 1], labels[k - 1], Writer);
      }
    }
  }

  /**
   What a write returns: the number of bytes it sent, as many as it has and as there was room for and
   never none, or EPIPE, exactly if it sent nothing, and then because it found no reader.
   */
  lemma WriteReturns(states: seq<State>, labels: seq<Label>, bytes: seq<Byte>, i: nat, k: nat) returns (m: nat)
    requires IsRun(states, labels) && i < k <= |labels| && labels[i] == BeginWrite(bytes)
    requires InCall(states, Writer, i, k) && states[k].writer.pc.Out?
    ensures states[k].writer.pc.ret == EPIPE <==> states[k].sent == states[i].sent
    ensures states[k].writer.pc.ret == EPIPE ==> Refused(states, labels, i, k)
    ensures states[k].writer.pc.ret != EPIPE ==> Gave(states, labels, bytes, i, k, m, states[k].writer.pc.ret)
  {
    m := WriteProgress(states, labels, bytes, i, k);
    if states[k].writer.pc.ret != EPIPE { assert |states[k].sent| > |states[i].sent|; }
  }

  // Where a wake is lost

  ghost predicate Reachable(s: State) {
    exists states, labels :: IsRun(states, labels) && states[|labels|] == s
  }

  lemma InitReachable(s: State)
    requires Init(s)
    ensures Reachable(s)
  {
    var none: seq<Label> := [];
    assert IsRun([s], none) && [s][|none|] == s;
  }

  lemma ReachesNext(s: State, l: Label) returns (s': State)
    requires Reachable(s) && Enabled(s, l) && |s.ring| <= PIPE_BUF_SIZE
    ensures s' == Next(s, l) && Reachable(s')
  {
    var states, labels :| IsRun(states, labels) && states[|labels|] == s;
    s' := Next(s, l);
    var states', labels' := states + [s'], labels + [l];
    forall i | 0 <= i < |labels'| ensures IsStep(states'[i], labels'[i], states'[i + 1]) {
      if i < |labels| { assert IsStep(states[i], labels[i], states[i + 1]); }
    }
    assert IsRun(states', labels') && states'[|labels'|] == s';
  }

  predicate Stranded(s: State, side: Side) {
    Mine(s, side).pc.Asleep? && Peer(s, side).refs == 0 && !WakePending(s, side)
  }

  /**
   A thread asleep on a pipe whose other end is closed is stranded if and only if the last close
   skipped the release hook and no transfer that the other side made before is about to wake it.
   */
  lemma StrandedIff(states: seq<State>, labels: seq<Label>, i: nat, side: Side)
    requires IsRun(states, labels) && i < |states|
    requires Mine(states[i], side).pc.Asleep? && Peer(states[i], side).refs == 0
    ensures var peer := Peer(states[i], side);
      Stranded(states[i], side) <==> peer.closer.Quiet? && !peer.pc.Bump? && !peer.pc.Wake?
  {
    RunKeepsInv(states, labels, i);
  }

  /** The thread sleeps, or will sleep at its next step unless its counter moves first. */
  predicate Committed(e: End) {
    e.pc.Asleep? || (e.pc.Blocking? && e.gen == e.pc.snap)
  }

  /**
   A last close that skips the release hook, while the closing side has no call under way, strands
   the other thread exactly when that thread has committed to sleeping.
   */
  lemma QuietCloseStrandsIff(states: seq<State>, labels: seq<Label>, i: nat, side: Side)
    requires IsRun(states, labels) && i < |labels| && labels[i] == CloseQuietly(side)
    requires Mine(states[i], side).refs == 1 && Mine(states[i], side).pc.Out?
    ensures var s, s' := states[i], states[i + 1];
      Committed(Peer(s, side)) <==>
        || Stranded(s', Opposite(side))
        || (Peer(s', side).pc.Blocking? && Stranded(DoBlock(s', Opposite(side)), Opposite(side)))
  {
    RunKeepsInv(states, labels, i);
    assert IsStep(states[i], labels[i], states[i + 1]);
    var s := states[i];
    if Peer(s, side).pc.Blocking? {
      WordsTellApart(Peer(s, side), Mine(s, side), Edge(s, Opposite(side)));
    }
  }

  /** Such a run exists: the reader goes to sleep, then `dup2` replaces the last write descriptor. */
  lemma QuietCloseStrandsReader(s: State) returns (s': State)
    requires Init(s)
    ensures Reachable(s') && Stranded(s', Reader)
  {
    InitReachable(s);
    s' := ReachesNext(s, BeginRead(1));
    s' := FallsAsleep(s', Reader);
    s' := ReachesNext(s', CloseQuietly(Writer));
  }

  /** What the locked section moves for this side. */
  function Moves(s: State, side: Side): nat
    requires |s.ring| <= PIPE_BUF_SIZE
  {
    if side.Reader? then Min(s.reader.size, |s.ring|) else Min(|s.buf|, PIPE_BUF_SIZE - |s.ring|)
  }

  /** A call that moves nothing, undisturbed, goes to sleep. */
  lemma FallsAsleep(s: State, side: Side) returns (s': State)
    requires Reachable(s) && Mine(s, side).pc.Start? && Peer(s, side).refs > 0
    requires |s.ring| <= PIPE_BUF_SIZE && Moves(s, side) == 0
    ensures Reachable(s') && s' == SetPc(s, side, Asleep)
  {
    s' := ReachesNext(s, Sample(side));
    s' := ReachesNext(s', Transfer(side));
    s' := ReachesNext(s', CheckPeer(side));
    s' := ReachesNext(s', Block(side));
  }

  /** A fresh pipe after one write that fits. */
  lemma WriteInto(s: State, bytes: seq<Byte>) returns (s': State)
    requires Init(s) && 0 < |bytes| <= PIPE_BUF_SIZE
    ensures Reachable(s') && s'.ring == bytes && s'.reader.pc.Out? && s'.writer.pc.Out?
    ensures s'.reader.refs == 1 && s'.writer.refs == 1 && s'.reader.closer.Live? && s'.writer.closer.Live?
  {
    InitReachable(s);
    s' := ReachesNext(s, BeginWrite(bytes));
    s' := ReachesNext(s', Sample(Writer));
    s' := ReachesNext(s', Transfer(Writer));
    s' := ReachesNext(s', BumpPeer(Writer));
    s' := ReachesNext(s', WakePeer(Writer));
  }

  /** Asleep in a call of `n` bytes although the ring has something for it, and nobody will wake it. */
  predicate Overslept(s: State, side: Side, n: nat) {
    Mine(s, side).pc.Asleep? && Mine(s, side).size == n && Edge(s, side) && !WakePending(s, side)
  }

  /** Both threads asleep, in calls of `r` and `w` bytes, and nobody will wake either. */
  predicate Deadlocked(s: State, r: nat, w: nat) {
    && s.reader.pc.Asleep? && s.reader.size == r && s.writer.pc.Asleep? && s.writer.size == w
    && !WakePending(s, Reader) && !WakePending(s, Writer)
  }

  /** A call that moves nothing is taken for a full or empty ring, so calls of zero bytes sleep with no reason. */
  lemma ZeroSleeps(s: State, side: Side) returns (s': State)
    requires Init(s)
    ensures Reachable(s') && Overslept(s', side, 0)
  {
    if side.Reader? {
      s' := WriteInto(s, [0]);
      s' := ReachesNext(s', BeginRead(0));
    } else {
      InitReachable(s);
      s' := ReachesNext(s, BeginWrite([]));
    }
    s' := FallsAsleep(s', side);
  }

  /** A thread can oversleep a wake that it needed if and only if its call was for zero bytes. */
  lemma OversleepsIff(side: Side, n: nat)
    ensures (exists s :: Reachable(s) && Overslept(s, side, n)) <==> n == 0
  {
    if n == 0 {
      var s := ZeroSleeps(FRESH, side);
    } else {
      forall s | Reachable(s) ensures !Overslept(s, side, n) {
        var states, labels :| IsRun(states, labels) && states[|labels|] == s;
        RunKeepsInv(states, labels, |labels|);
      }
    }
  }

  function ZeroBytes(n: nat): (r: seq<Byte>)
    ensures |r| == n
  {
    seq(n, _ => 0)
  }

  lemma ZeroDeadlocks(s: State, r: nat, w: nat) returns (s': State)
    requires Init(s) && (r == 0 || w == 0)
    ensures Reachable(s') && Deadlocked(s', r, w)
  {
    if w == 0 {
      InitReachable(s);
      s' := s;
    } else {
      s' := WriteInto(s, ZeroBytes(PIPE_BUF_SIZE));
    }
    s' := ReachesNext(s', BeginWrite(ZeroBytes(w)));
    s' := FallsAsleep(s', Writer);
    s' := ReachesNext(s', BeginRead(r));
    s' := FallsAsleep(s', Reader);
  }

  /** Reader and writer can both be asleep if and only if one of the two calls is for zero bytes. */
  lemma BothAsleepIff(r: nat, w: nat)
    ensures (exists s :: Reachable(s) && Deadlocked(s, r, w)) <==> r == 0 || w == 0
    ensures r > 0 && w > 0 ==>
      forall s :: Reachable(s) && s.reader.size == r && s.writer.size == w ==>
        !(s.reader.pc.Asleep? && s.writer.pc.Asleep?)
  {
    if r == 0 || w == 0 {
      var s := ZeroDeadlocks(FRESH, r, w);
    } else {
      forall s | Reachable(s) && s.reader.size == r && s.writer.size == w
        ensures !(s.reader.pc.Asleep? && s.writer.pc.Asleep?)
      {
        var states, labels :| IsRun(states, labels) && states[|labels|] == s;
        RunKeepsInv(states, labels, |labels|);
      }
    }
  }
}
