/**
 The batched acknowledgement path: 128 buffer ids circulate between the client's writes, the server's
 open batch and the acks, while the client slides its window modulo 256. Both directions are in-order
 channels; a message or a write is copied out of its sender's memory only when it arrives.
 */
module SlidingWindow {
  import opened ImmData
  import opened Wrappers

  const IN_FLIGHT := 128
  const WINDOWS := 256
  const BUFFER_SIZE := 16384
  const BATCH := 48

  /** `batch_index`: the ids, the window id of the batch; the count is the number of ids. */
  datatype Msg = Msg(tokens: seq<nat>, window: nat)

  /** A posted write: the immediate on the wire and the client's idea of the offset and length. */
  datatype Write = Write(imm: nat, base: nat, len: nat)

  /** The ack the client is working through: its message slot, the next token, and the local window id. */
  datatype Current = Current(slot: nat, next: nat, window: nat)

  datatype State = State(
    window: nat,
    current: Option<Current>,
    clientBuf: map<nat, nat>,
    clientMsg: seq<Msg>,
    recvQueue: seq<nat>,
    clientCq: seq<nat>,
    ackWire: seq<nat>,
    writeWire: seq<Write>,
    serverBuf: map<nat, nat>,
    serverCq: seq<nat>,
    serverRecvs: nat,
    serverMsg: seq<Msg>,
    echo: Option<nat>,
    failed: bool,
    sent: nat)

  datatype Act =
    | WriteArrives
    | AckArrives
    | TakeWrite
    | Flush
    | StartAck
    | SendToken
    | EndAck

  function Offset(bufferId: nat, windowId: nat): nat {
    bufferId * BUFFER_SIZE + windowId * BUFFER_SIZE * IN_FLIGHT
  }

  function Byte(buf: map<nat, nat>, at: int): nat {
    if at >= 0 && at as nat in buf then buf[at as nat] else 0
  }

  /** The first and the last byte of a chunk carry its buffer id. */
  function Mark(buf: map<nat, nat>, base: nat, len: nat, id: nat): map<nat, nat>
    requires len > 0
  {
    buf[base := id][base + len - 1 := id]
  }

  /** `process_message` accepts a chunk whose first and last byte are the token, and clears them. */
  predicate Marked(buf: map<nat, nat>, base: nat, len: nat, id: nat) {
    Byte(buf, base) == id && Byte(buf, base + len - 1) == id
  }

  predicate Enabled(s: State, act: Act) {
    match act
    case WriteArrives => s.writeWire != [] && s.writeWire[0].len > 0
    case AckArrives => s.ackWire != [] && s.ackWire[0] < |s.serverMsg| && s.recvQueue != [] && s.recvQueue[0] < |s.clientMsg|
    case TakeWrite =>
      && s.serverCq != [] && Word(s.serverCq[0])
      && (s.echo.Some? ==> s.echo.value < |s.serverMsg|)
      && BufferField(SwapBytes(s.serverCq[0])) < |s.serverMsg|
    case Flush => s.echo.Some?
    case StartAck => s.current.None? && s.clientCq != []
    case SendToken =>
      && s.current.Some? && s.current.value.slot < |s.clientMsg|
      && s.current.value.next < |s.clientMsg[s.current.value.slot].tokens|
      && Word(s.clientMsg[s.current.value.slot].tokens[s.current.value.next]) && Word(s.current.value.window)
    case EndAck =>
      && s.current.Some? && s.current.value.slot < |s.clientMsg|
      && s.current.value.next == |s.clientMsg[s.current.value.slot].tokens|
  }

  /** The network interface consumes a posted receive and copies the chunk; without a receive the run has failed. */
  function WriteArrived(s: State): State
    requires Enabled(s, WriteArrives)
  {
    var x := s.writeWire[0];
    if s.serverRecvs == 0 then s.(failed := true)
    else
      s.(writeWire := s.writeWire[1..], serverRecvs := s.serverRecvs - 1, serverCq := s.serverCq + [x.imm],
         serverBuf := s.serverBuf[x.base := Byte(s.clientBuf, x.base)]
                                 [x.base + x.len - 1 := Byte(s.clientBuf, x.base + x.len - 1)])
  }

  /** The ack's slot is read when it arrives, into the oldest posted receive of the client; without one it waits. */
  function AckArrived(s: State): State
    requires Enabled(s, AckArrives)
  {
    s.(ackWire := s.ackWire[1..], recvQueue := s.recvQueue[1..], clientCq := s.clientCq + [s.recvQueue[0]],
       clientMsg := s.clientMsg[s.recvQueue[0] := s.serverMsg[s.ackWire[0]]])
  }

  /** The server handles one completion: open a batch if none is open, check the chunk, add its id, send a full batch. */
  function WriteTaken(s: State): State
    requires Enabled(s, TakeWrite)
  {
    var imm := SwapBytes(s.serverCq[0]);
    var windowId, bufferId, size := WindowField(imm), BufferField(imm), SizeField(imm);
    var echo := if s.echo.Some? then s.echo.value else bufferId;
    var batch := if s.echo.Some? then s.serverMsg else s.serverMsg[echo := Msg([], windowId)];
    var base := Offset(bufferId, windowId);
    var ok := size > 0 && Marked(s.serverBuf, base, size, bufferId);
    var msg := batch[echo].(tokens := batch[echo].tokens + [bufferId]);
    var full := |msg.tokens| >= BATCH;
    s.(serverCq := s.serverCq[1..], serverRecvs := s.serverRecvs + 1,
       failed := s.failed || !ok,
       serverBuf := if ok then Mark(s.serverBuf, base, size, 0) else s.serverBuf,
       serverMsg := batch[echo := msg],
       echo := if full then None else Some(echo),
       ackWire := if full then s.ackWire + [echo] else s.ackWire)
  }

  /** The client reuses one token: mark the chunk, write it, and slide the window after the last buffer. */
  function TokenSent(s: State): State
    requires Enabled(s, SendToken)
  {
    var cur := s.current.value;
    var bufferId := s.clientMsg[cur.slot].tokens[cur.next];
    var base := Offset(bufferId, cur.window);
    var slid := if bufferId == IN_FLIGHT - 1 then (s.window + 1) % WINDOWS else s.window;
    s.(clientBuf := Mark(s.clientBuf, base, BUFFER_SIZE, bufferId),
       writeWire := s.writeWire + [Write(SwapBytes(Pack(bufferId, cur.window, BUFFER_SIZE)), base, BUFFER_SIZE)],
       window := slid,
       current := Some(Current(cur.slot, cur.next + 1, if bufferId == IN_FLIGHT - 1 then slid else cur.window)),
       sent := s.sent + 1)
  }

  function Step(s: State, act: Act): State
    requires Enabled(s, act)
  {
    match act
    case WriteArrives => WriteArrived(s)
    case AckArrives => AckArrived(s)
    case TakeWrite => WriteTaken(s)
    case Flush => s.(ackWire := s.ackWire + [s.echo.value], echo := None)
    case StartAck =>
      var w := s.window % WINDOWS;
      s.(clientCq := s.clientCq[1..], window := w, current := Some(Current(s.clientCq[0], 0, w)))
    case SendToken => TokenSent(s)
    case EndAck =>
      s.(recvQueue := s.recvQueue + [s.current.value.slot], current := None)
  }

  /** Ids `lo`, `lo` + 1, ... modulo 128. */
  function Cycle(lo: nat, len: nat): (ids: seq<nat>)
    ensures |ids| == len && forall i | 0 <= i < len :: ids[i] == (lo + i) % IN_FLIGHT
  {
    seq(len, i requires 0 <= i < len => (lo + i) % IN_FLIGHT)
  }

  /** The window of write number `m`: the first 128 are outstanding from the start, in window `first`. */
  function WindowOf(first: nat, start: nat, m: nat): nat {
    if m < IN_FLIGHT then first % WINDOWS else (start + (m - IN_FLIGHT) / IN_FLIGHT) % WINDOWS
  }

  /** Write number `m` as the client posts it. */
  function WriteOf(first: nat, start: nat, m: nat): Write {
    var id, w := m % IN_FLIGHT, WindowOf(first, start, m);
    Write(SwapBytes(Pack(id, w, BUFFER_SIZE)), Offset(id, w), BUFFER_SIZE)
  }

  function Writes(first: nat, start: nat): nat -> Write {
    (m: nat) => WriteOf(first, start, m)
  }

  /** The tokens in the given message slots, one slot after the other. */
  function Cat(msgs: seq<Msg>, slots: seq<nat>): seq<nat> {
    if slots == [] then []
    else
      var last := slots[|slots| - 1];
      Cat(msgs, slots[..|slots| - 1]) + (if last < |msgs| then msgs[last].tokens else [])
  }

  function Remaining(s: State): seq<nat> {
    if s.current.Some? && s.current.value.slot < |s.clientMsg| && s.current.value.next <= |s.clientMsg[s.current.value.slot].tokens|
    then s.clientMsg[s.current.value.slot].tokens[s.current.value.next..] else []
  }

  function OpenBatch(s: State): seq<nat> {
    if s.echo.Some? && s.echo.value < |s.serverMsg| then s.serverMsg[s.echo.value].tokens else []
  }

  /** Tokens the server has taken over from the client and the client has not reused yet. */
  function Acked(s: State): seq<nat> {
    Remaining(s) + Cat(s.clientMsg, s.clientCq) + Cat(s.serverMsg, s.ackWire) + OpenBatch(s)
  }

  function Outstanding(s: State): nat {
    |s.serverCq| + |s.writeWire|
  }

  function Bit(b: bool): nat {
    if b then 1 else 0
  }

  /** How often a message slot of the client is posted, waiting or being worked through. */
  function SlotUses(s: State, i: nat): nat {
    multiset(s.recvQueue)[i] + multiset(s.clientCq)[i] + Bit(s.current.Some? && s.current.value.slot == i)
  }

  ghost predicate TokensInv(s: State) {
    Outstanding(s) <= IN_FLIGHT && Acked(s) == Cycle(s.sent, IN_FLIGHT - Outstanding(s))
  }

  /** The number of the oldest write not taken by the server. */
  function Oldest(s: State): nat
    requires Outstanding(s) <= IN_FLIGHT
  {
    s.sent + IN_FLIGHT - Outstanding(s)
  }

  ghost predicate WritesInv(s: State, write: nat -> Write)
    requires Outstanding(s) <= IN_FLIGHT
  {
    && s.serverRecvs + |s.serverCq| == IN_FLIGHT
    && (forall i | 0 <= i < |s.serverCq| :: s.serverCq[i] == write(Oldest(s) + i).imm)
    && (forall i | 0 <= i < |s.writeWire| :: s.writeWire[i] == write(Oldest(s) + |s.serverCq| + i))
  }

  /** Chunks not yet copied are marked at the client, chunks not yet taken at the server. */
  ghost predicate MarksInv(s: State, write: nat -> Write)
    requires Outstanding(s) <= IN_FLIGHT
  {
    && (forall m: nat | Oldest(s) <= m < Oldest(s) + |s.serverCq| :: MarkedFor(s.serverBuf, write, m))
    && (forall m: nat | Oldest(s) + |s.serverCq| <= m < s.sent + IN_FLIGHT :: MarkedFor(s.clientBuf, write, m))
  }

  predicate MarkedFor(buf: map<nat, nat>, write: nat -> Write, m: nat) {
    Marked(buf, write(m).base, BUFFER_SIZE, m % IN_FLIGHT)
  }

  predicate Apart(x: Write, y: Write) {
    x.base + BUFFER_SIZE <= y.base || y.base + BUFFER_SIZE <= x.base
  }

  /** Whole chunks, and those of writes less than a full cycle apart do not overlap. */
  ghost predicate Spaced(write: nat -> Write) {
    && (forall m: nat :: write(m).len == BUFFER_SIZE)
    && (forall m: nat, m': nat | m < m' < m + IN_FLIGHT :: Apart(write(m), write(m')))
  }

  ghost predicate WindowInv(s: State, start: nat) {
    && s.window == (start + s.sent / IN_FLIGHT) % WINDOWS
    && (s.current.Some? ==> s.current.value.window == s.window)
  }

  ghost predicate SlotsInv(s: State) {
    && |s.clientMsg| == |s.serverMsg| == IN_FLIGHT
    && |s.recvQueue| + |s.clientCq| + Bit(s.current.Some?) == IN_FLIGHT
    && (forall i: nat :: SlotUses(s, i) <= Bit(i < IN_FLIGHT))
    && (forall i | 0 <= i < |s.clientCq| :: s.clientCq[i] < IN_FLIGHT && s.clientMsg[s.clientCq[i]].tokens != [])
    && (s.current.Some? ==> s.current.value.slot < IN_FLIGHT
                            && s.current.value.next <= |s.clientMsg[s.current.value.slot].tokens|)
  }

  /** Every ack in flight and the open batch sit in the slot named by their first token, with at most 48 tokens. */
  ghost predicate BatchInv(s: State)
    requires |s.serverMsg| == IN_FLIGHT
  {
    && (forall i | 0 <= i < |s.ackWire| :: s.ackWire[i] < IN_FLIGHT && InOwnSlot(s, s.ackWire[i]))
    && (s.echo.Some? ==> s.echo.value < IN_FLIGHT && InOwnSlot(s, s.echo.value) && |s.serverMsg[s.echo.value].tokens| < BATCH)
  }

  predicate InOwnSlot(s: State, slot: nat)
    requires slot < |s.serverMsg|
  {
    var tokens := s.serverMsg[slot].tokens;
    1 <= |tokens| <= BATCH && tokens[0] == slot
  }

  ghost predicate InvFor(s: State, write: nat -> Write, start: nat) {
    !s.failed && TokensInv(s) && WritesInv(s, write) && MarksInv(s, write)
    && WindowInv(s, start) && SlotsInv(s) && BatchInv(s)
  }

  ghost predicate Inv(s: State, first: nat, start: nat) {
    InvFor(s, Writes(first, start), start)
  }

  /**
   All 128 ids outstanding in order, on the wire and marked, in window `first`; the client's window is
   `start`, and all its message slots are posted, in any order.
   */
  ghost predicate Initial(s: State, first: nat, start: nat) {
    && s.window == start < WINDOWS && s.current == None && s.sent == 0 && !s.failed
    && (forall m: nat | m < IN_FLIGHT :: MarkedFor(s.clientBuf, Writes(first, start), m))
    && |s.clientMsg| == |s.serverMsg| == IN_FLIGHT && s.clientCq == []
    && |s.recvQueue| == IN_FLIGHT && multiset(s.recvQueue) == multiset(Cycle(0, IN_FLIGHT))
    && |s.writeWire| == IN_FLIGHT && (forall i: nat | i < IN_FLIGHT :: s.writeWire[i] == Writes(first, start)(i))
    && s.serverCq == [] && s.serverRecvs == IN_FLIGHT && s.ackWire == [] && s.echo == None
  }

  /** Chunks of different buffers never overlap, in whatever windows they are. */
  lemma OffsetsApart(id: nat, w: nat, id': nat, w': nat)
    requires id < IN_FLIGHT && id' < IN_FLIGHT && (id != id' || w != w')
    ensures Offset(id, w) + BUFFER_SIZE <= Offset(id', w') || Offset(id', w') + BUFFER_SIZE <= Offset(id, w)
  {
    var a, b := id + w * IN_FLIGHT, id' + w' * IN_FLIGHT;
    assert Offset(id, w) == a * BUFFER_SIZE && Offset(id', w') == b * BUFFER_SIZE;
    assert a != b;
  }

  /** Writes less than a full cycle apart use different buffers. */
  lemma WritesSpaced(first: nat, start: nat)
    ensures Spaced(Writes(first, start))
  {
    forall m: nat, m': nat | m < m' < m + IN_FLIGHT
      ensures Apart(Writes(first, start)(m), Writes(first, start)(m'))
    {
      assert m % IN_FLIGHT != m' % IN_FLIGHT;
      OffsetsApart(m % IN_FLIGHT, WindowOf(first, start, m), m' % IN_FLIGHT, WindowOf(first, start, m'));
    }
  }

  lemma MarkKeepsOthers(buf: map<nat, nat>, write: nat -> Write, k: nat, m: nat, v: nat, v': nat)
    requires Spaced(write) && MarkedFor(buf, write, m) && (m < k < m + IN_FLIGHT || k < m < k + IN_FLIGHT)
    ensures MarkedFor(buf[write(k).base := v][write(k).base + BUFFER_SIZE - 1 := v'], write, m)
  {
    assert Apart(write(m), write(k)) || Apart(write(k), write(m));
  }

  lemma WriteFields(first: nat, start: nat, m: nat)
    ensures WindowOf(first, start, m) < WINDOWS
    ensures var imm := SwapBytes(WriteOf(first, start, m).imm);
            && Word(WriteOf(first, start, m).imm)
            && BufferField(imm) == m % IN_FLIGHT && WindowField(imm) == WindowOf(first, start, m) && SizeField(imm) == BUFFER_SIZE
  {
    var id, w := m % IN_FLIGHT, WindowOf(first, start, m);
    SwapTwice(Pack(id, w, BUFFER_SIZE));
    Fields(id, w, BUFFER_SIZE);
  }

  function Tokens(msgs: seq<Msg>, slot: nat): seq<nat> {
    if slot < |msgs| then msgs[slot].tokens else []
  }

  lemma {:induction false} CatFront(msgs: seq<Msg>, slots: seq<nat>)
    requires slots != []
    ensures Cat(msgs, slots) == Tokens(msgs, slots[0]) + Cat(msgs, slots[1..])
  {
    var n := |slots|;
    if n > 1 {
      var init, rest := slots[..n - 1], slots[1..];
      CatFront(msgs, init);
      assert rest[..n - 2] == init[1..];
      assert Cat(msgs, rest) == Cat(msgs, init[1..]) + Tokens(msgs, slots[n - 1]);
      assert Cat(msgs, slots) == Cat(msgs, init) + Tokens(msgs, slots[n - 1]);
    } else {
      assert slots[..0] == [] && slots[1..] == [];
    }
  }

  lemma CatBack(msgs: seq<Msg>, slots: seq<nat>, last: nat)
    ensures Cat(msgs, slots + [last]) == Cat(msgs, slots) + Tokens(msgs, last)
  {
    assert (slots + [last])[..|slots|] == slots;
  }

  lemma {:induction false} CatSame(msgs: seq<Msg>, msgs': seq<Msg>, slots: seq<nat>)
    requires |msgs| == |msgs'| && forall i | 0 <= i < |slots| :: slots[i] < |msgs| ==> msgs[slots[i]] == msgs'[slots[i]]
    ensures Cat(msgs, slots) == Cat(msgs', slots)
  {
    if slots != [] {
      CatSame(msgs, msgs', slots[..|slots| - 1]);
    }
  }

  /** Every slot's tokens appear in the concatenation. */
  lemma {:induction false} CatHas(msgs: seq<Msg>, slots: seq<nat>, i: nat, x: nat)
    requires i < |slots| && slots[i] < |msgs| && x in msgs[slots[i]].tokens
    ensures x in Cat(msgs, slots)
  {
    if i < |slots| - 1 {
      CatHas(msgs, slots[..|slots| - 1], i, x);
    }
  }
}
