/** The two ends of the sliding-window path as objects: what one call does is a run of steps of the machine. */
module SlidingEndpoints {
  import opened ImmData
  import opened SlidingWindow
  import opened SlidingWindowProof
  import opened SlidingWindowRuns
  import opened Wrappers

  const BUFFER_BYTES := BUFFER_SIZE * IN_FLIGHT * WINDOWS

  function Repeated(act: Act, n: nat): (acts: seq<Act>)
    ensures |acts| == n
  {
    if n == 0 then [] else Repeated(act, n - 1) + [act]
  }

  ghost predicate SameBytes(bytes: seq<nat>, buf: map<nat, nat>) {
    forall i: nat | i < |bytes| :: bytes[i] == Byte(buf, i)
  }

  lemma ChunkInBuffer(id: nat, w: nat)
    requires id < IN_FLIGHT && w < WINDOWS
    ensures Offset(id, w) + BUFFER_SIZE <= BUFFER_BYTES
  {
    assert Offset(id, w) == (id + w * IN_FLIGHT) * BUFFER_SIZE;
    assert id + w * IN_FLIGHT + 1 <= IN_FLIGHT * WINDOWS;
  }

  method MarkChunk(buffer: array<nat>, base: nat, len: nat, id: nat, ghost buf: map<nat, nat>)
    requires len > 0 && base + len <= buffer.Length && SameBytes(buffer[..], buf)
    modifies buffer
    ensures SameBytes(buffer[..], Mark(buf, base, len, id))
    ensures buffer[base] == buffer[base + len - 1] == id
    ensures forall i | 0 <= i < buffer.Length && i != base && i != base + len - 1 :: buffer[i] == old(buffer[i])
  {
    buffer[base] := id;
    buffer[base + len - 1] := id;
  }

  /** The steps the first `n` tokens of an ack make. */
  function SendSteps(n: nat): seq<Act> {
    [StartAck] + Repeated(SendToken, n)
  }

  /** The state `t` after `n` tokens of the ack in `slot`, the local window id being `window`. */
  ghost predicate Sending(s: State, t: State, slot: nat, n: nat, window: nat) {
    Runs(s, SendSteps(n), t) && t.clientMsg == s.clientMsg && t.current == Some(Current(slot, n, window))
  }

  lemma SendingStarts(s: State)
    requires Enabled(s, StartAck)
    ensures Sending(s, Step(s, StartAck), s.clientCq[0], 0, s.window % WINDOWS)
  {
    RunExtends(s, [], StartAck);
    assert SendSteps(0) == [] + [StartAck];
  }

  lemma TokenSentMoves(t: State)
    requires Enabled(t, SendToken)
    ensures TokenSent(t).clientMsg == t.clientMsg && TokenSent(t).current.Some?
    ensures TokenSent(t).current.value.slot == t.current.value.slot && TokenSent(t).current.value.next == t.current.value.next + 1
  {
  }

  lemma SendingGoesOn(s: State, t: State, slot: nat, n: nat, window: nat)
    requires Sending(s, t, slot, n, window) && Enabled(t, SendToken)
    ensures Sending(s, TokenSent(t), slot, n + 1, TokenSent(t).current.value.window)
  {
    RunExtends(s, SendSteps(n), SendToken);
    TokenSentMoves(t);
    assert SendSteps(n) + [SendToken] == SendSteps(n + 1);
  }

  lemma TokenLeft(s: State, t: State, slot: nat, n: nat, window: nat, first: nat, start: nat)
    requires Inv(s, first, start) && Sending(s, t, slot, n, window)
    ensures Inv(t, first, start) && slot < |s.clientMsg|
    ensures n < |s.clientMsg[slot].tokens| ==> Enabled(t, SendToken)
    ensures n == |s.clientMsg[slot].tokens| ==> Enabled(t, EndAck)
  {
    RunInv(s, SendSteps(n), first, start);
    SendEnabled(t, first, start);
  }

  lemma SendingEnds(s: State, t: State, slot: nat, window: nat, first: nat, start: nat)
    requires Inv(s, first, start) && slot < |s.clientMsg| && Sending(s, t, slot, |s.clientMsg[slot].tokens|, window)
    ensures Enabled(t, EndAck) && t.current.value.slot == slot
    ensures var acts := SendSteps(|s.clientMsg[slot].tokens|) + [EndAck];
            IsRun(s, acts) && After(s, acts) == Step(t, EndAck)
  {
    TokenLeft(s, t, slot, |s.clientMsg[slot].tokens|, window, first, start);
    RunExtends(s, SendSteps(|s.clientMsg[slot].tokens|), EndAck);
  }

  /** What `parse_from_imm_data` finds in an immediate. */
  predicate ReadsAs(imm: nat, bufferId: nat, windowId: nat, len: nat) {
    && Word(imm) && BufferField(SwapBytes(imm)) == bufferId
    && WindowField(SwapBytes(imm)) == windowId && SizeField(SwapBytes(imm)) == len
  }

  lemma TokenFits(s: State, first: nat, start: nat)
    requires Inv(s, first, start) && Enabled(s, SendToken)
    ensures var cur := s.current.value;
            var id := s.clientMsg[cur.slot].tokens[cur.next];
            id < IN_FLIGHT && cur.window < WINDOWS && cur.window == s.window && Offset(id, cur.window) + BUFFER_SIZE <= BUFFER_BYTES
  {
    NextToken(s);
    ChunkInBuffer(s.sent % IN_FLIGHT, s.current.value.window);
  }

  class Client {
    var windowId: nat
    var msg: seq<Msg>
    var posted: seq<Write>
    var receives: seq<nat>
    const buffer: array<nat>

    ghost predicate Matches(s: State)
      reads this, buffer
    {
      && windowId == s.window && msg == s.clientMsg && posted == s.writeWire && receives == s.recvQueue
      && buffer.Length == BUFFER_BYTES && SameBytes(buffer[..], s.clientBuf)
    }

    /**
     Posts the write. For ids of one byte the server reads buffer, window and length back from the
     immediate exactly if the length is below 65536, and then writes to and reads from the same region.
     */
    method WriteRemote(bufferId: nat, windowId: nat, len: nat)
      requires Word(bufferId) && Word(windowId) && Word(len)
      modifies this`posted
      ensures |posted| == |old(posted)| + 1 && old(posted) <= posted
      ensures posted[|old(posted)|] == Write(SwapBytes(Pack(bufferId, windowId, len)), Offset(bufferId, windowId), len)
      ensures posted[|old(posted)|].base == bufferId * 16384 + windowId * 2097152 && posted[|old(posted)|].len == len
      ensures bufferId < 256 && windowId < 256 && len < 65536 ==>
                posted[|old(posted)|].imm == (len % 256) * 16777216 + (len / 256) * 65536 + windowId * 256 + bufferId
      ensures bufferId < 256 && windowId < 256 ==>
                (len < TWO_16 <==> ReadsAs(posted[|old(posted)|].imm, bufferId, windowId, len))
      ensures bufferId < 256 && windowId < 256 && len < TWO_16 ==>
                ChunkOf(posted[|old(posted)|].imm) == posted[|old(posted)|].base
    {
      posted := posted + [Write(SwapBytes(Pack(bufferId, windowId, len)), Offset(bufferId, windowId), len)];
      if bufferId < 256 && windowId < 256 {
        PackParse(bufferId, windowId, len);
        if len < 65536 {
          PackLayout(bufferId, windowId, len);
        }
      }
    }

    /** One pass of the token loop, with the local window id. */
    method ReuseToken(slot: nat, tokenId: nat, window: nat, ghost s: State) returns (next: nat)
      requires Matches(s) && s.current == Some(Current(slot, tokenId, window)) && Enabled(s, SendToken)
      requires Offset(s.clientMsg[slot].tokens[tokenId], window) + BUFFER_SIZE <= BUFFER_BYTES
      modifies this, buffer
      ensures Matches(TokenSent(s)) && next == TokenSent(s).current.value.window
    {
      var bufferId := msg[slot].tokens[tokenId];
      MarkChunk(buffer, Offset(bufferId, window), BUFFER_SIZE, bufferId, s.clientBuf);
      WriteRemote(bufferId, window, BUFFER_SIZE);
      next := window;
      if bufferId == IN_FLIGHT - 1 {
        windowId := (windowId + 1) % WINDOWS;
        next := windowId;
      }
    }

    method ReuseNext(slot: nat, tokenId: nat, window: nat, ghost s: State, ghost t: State, ghost first: nat, ghost start: nat)
      returns (next: nat, ghost t': State)
      requires Matches(t) && Sending(s, t, slot, tokenId, window)
      requires Inv(s, first, start) && slot < |s.clientMsg| && tokenId < |s.clientMsg[slot].tokens|
      modifies this, buffer
      ensures Matches(t') && Sending(s, t', slot, tokenId + 1, next)
    {
      TokenLeft(s, t, slot, tokenId, window, first, start);
      SendingGoesOn(s, t, slot, tokenId, window);
      TokenFits(t, first, start);
      next := ReuseToken(slot, tokenId, window, t);
      t' := TokenSent(t);
    }

    /** The token loop of `on_completion`. */
    method ReuseAll(slot: nat, numToken: nat, window: nat, ghost s: State, ghost t: State, ghost first: nat, ghost start: nat)
      returns (ghost t': State, ghost last: nat)
      requires Matches(t) && Sending(s, t, slot, 0, window)
      requires Inv(s, first, start) && slot < |s.clientMsg| && numToken == |s.clientMsg[slot].tokens|
      modifies this, buffer
      ensures Matches(t') && Sending(s, t', slot, numToken, last)
    {
      t' := t;
      var windowId: nat := window;
      for tokenId := 0 to numToken
        invariant Matches(t') && Sending(s, t', slot, tokenId, windowId)
      {
        windowId, t' := ReuseNext(slot, tokenId, windowId, s, t', first, start);
      }
      last := windowId;
    }

    /** `on_completion` for an ack: reuse every token in order, then post the message slot again. */
    method OnCompletion(slot: nat, ghost s: State, ghost first: nat, ghost start: nat)
      requires Inv(s, first, start) && Enabled(s, StartAck) && slot == s.clientCq[0] < |msg| && Matches(s)
      modifies this, buffer
      ensures var acts := SendSteps(|old(msg)[slot].tokens|) + [EndAck];
              IsRun(s, acts) && Matches(After(s, acts))
    {
      var window: nat := windowId % WINDOWS;
      windowId := window;
      SendingStarts(s);
      var numToken: nat := |msg[slot].tokens|;
      ghost var t, last := ReuseAll(slot, numToken, window, s, Step(s, StartAck), first, start);
      SendingEnds(s, t, slot, last, first, start);
      receives := receives + [slot];
    }
  }

  /** A write as the network interface hands it over: the immediate, and the marked bytes of the chunk. */
  datatype Chunk = Chunk(imm: nat, base: nat, len: nat, firstByte: nat, lastByte: nat)

  ghost predicate CopyOf(x: Chunk, w: Write, buf: map<nat, nat>)
    requires w.base + w.len > 0
  {
    && x.imm == w.imm && x.base == w.base && x.len == w.len
    && x.firstByte == Byte(buf, w.base) && x.lastByte == Byte(buf, w.base + w.len - 1)
  }

  /** The chunks are those of the next writes on the wire, in order. */
  ghost predicate Incoming(s: State, xs: seq<Chunk>) {
    && |xs| <= |s.writeWire|
    && forall k | 0 <= k < |xs| :: s.writeWire[k].len > 0 && CopyOf(xs[k], s.writeWire[k], s.clientBuf)
  }

  function Flatten(arrivals: seq<seq<Chunk>>): seq<Chunk> {
    if arrivals == [] then [] else arrivals[0] + Flatten(arrivals[1..])
  }

  /** What the poll of this round finds arrived, and what the later ones do. */
  function Batch(arrivals: seq<seq<Chunk>>, round: nat): seq<Chunk> {
    if round < |arrivals| then arrivals[round] else []
  }

  function Later(arrivals: seq<seq<Chunk>>, round: nat): seq<Chunk> {
    if round < |arrivals| then Flatten(arrivals[round..]) else []
  }

  /** What a poll finds: before the first one, `queued` completions are waiting already. */
  function Polled(arrivals: seq<seq<Chunk>>, queued: nat, round: nat): nat {
    |Batch(arrivals, round)| + (if round == 0 then queued else 0)
  }

  /** The steps of the first `rounds` polls: the arrivals before each, and the handling of all it finds. */
  function PollActs(arrivals: seq<seq<Chunk>>, queued: nat, rounds: nat): seq<Act> {
    if rounds == 0 then []
    else PollActs(arrivals, queued, rounds - 1) + Repeated(WriteArrives, |Batch(arrivals, rounds - 1)|)
         + Repeated(TakeWrite, Polled(arrivals, queued, rounds - 1))
  }

  /** The loop before poll number `round`: all polls so far but perhaps the last, which returned `nc`, found something. */
  ghost predicate StillPolling(arrivals: seq<seq<Chunk>>, queued: nat, round: nat, nc: nat) {
    && (if round == 0 then nc == 1 else nc == Polled(arrivals, queued, round - 1))
    && forall k: nat | k + 1 < round :: Polled(arrivals, queued, k) > 0
  }

  lemma PollingEnds(arrivals: seq<seq<Chunk>>, queued: nat, round: nat, nc: nat)
    requires StillPolling(arrivals, queued, round, nc)
    ensures nc > 0 ==> round <= |arrivals| + 1
    ensures nc > 0 ==> StillPolling(arrivals, queued, round + 1, Polled(arrivals, queued, round))
    ensures nc == 0 ==> EndsAfter(arrivals, queued, round)
  {
  }

  ghost predicate EndsAfter(arrivals: seq<seq<Chunk>>, queued: nat, rounds: nat) {
    rounds > 0 && Polled(arrivals, queued, rounds - 1) == 0 && forall k: nat | k + 1 < rounds :: Polled(arrivals, queued, k) > 0
  }

  lemma LaterAll(arrivals: seq<seq<Chunk>>)
    ensures Later(arrivals, 0) == Flatten(arrivals)
  {
    assert arrivals[0..] == arrivals;
  }

  lemma LaterNext(arrivals: seq<seq<Chunk>>, round: nat)
    ensures Later(arrivals, round) == Batch(arrivals, round) + Later(arrivals, round + 1)
  {
    if round < |arrivals| {
      assert arrivals[round..][1..] == arrivals[round + 1..];
    }
  }

  lemma IncomingFirst(s: State, xs: seq<Chunk>, ys: seq<Chunk>)
    requires Incoming(s, xs + ys)
    ensures Incoming(s, xs)
  {
    forall k | 0 <= k < |xs| ensures s.writeWire[k].len > 0 && CopyOf(xs[k], s.writeWire[k], s.clientBuf) {
      assert (xs + ys)[k] == xs[k];
    }
  }

  lemma IncomingRest(s: State, t: State, xs: seq<Chunk>, ys: seq<Chunk>)
    requires Incoming(s, xs + ys) && t.writeWire == s.writeWire[|xs|..] && t.clientBuf == s.clientBuf
    ensures Incoming(t, ys)
  {
    forall k | 0 <= k < |ys| ensures t.writeWire[k].len > 0 && CopyOf(ys[k], t.writeWire[k], t.clientBuf) {
      assert (xs + ys)[|xs| + k] == ys[k];
    }
  }

  lemma IncomingAt(s: State, t: State, xs: seq<Chunk>, k: nat)
    requires Incoming(s, xs) && k < |xs| && t.writeWire == s.writeWire[k..] && t.clientBuf == s.clientBuf
    ensures Incoming(t, [xs[k]])
  {
  }

  lemma RepeatedMore(acts: seq<Act>, act: Act, n: nat)
    ensures acts + Repeated(act, n) + [act] == acts + Repeated(act, n + 1)
  {
  }

  lemma NextOnWire(s: State, first: nat, start: nat)
    requires Inv(s, first, start) && s.writeWire != []
    ensures Enabled(s, WriteArrives) && s.serverRecvs > 0
    ensures s.writeWire[0].len == BUFFER_SIZE && s.writeWire[0].base + BUFFER_SIZE <= BUFFER_BYTES
  {
    WriteAt(s, first, start, 0);
    WriteFields(first, start, Oldest(s) + |s.serverCq|);
    ChunkInBuffer((Oldest(s) + |s.serverCq|) % IN_FLIGHT, WindowOf(first, start, Oldest(s) + |s.serverCq|));
  }

  /** The oldest completion names a slot and a chunk that exist. */
  lemma FirstInQueue(s: State, first: nat, start: nat)
    requires Inv(s, first, start) && s.serverCq != []
    ensures Enabled(s, TakeWrite) && Word(s.serverCq[0])
    ensures var imm := SwapBytes(s.serverCq[0]);
            && BufferField(imm) < |s.serverMsg| && SizeField(imm) == BUFFER_SIZE
            && Offset(BufferField(imm), WindowField(imm)) + BUFFER_SIZE <= BUFFER_BYTES
  {
    QueueParses(s, first, start, 0);
    TakeEnabled(s, first, start);
    WriteFields(first, start, Oldest(s));
    ChunkInBuffer(Oldest(s) % IN_FLIGHT, WindowOf(first, start, Oldest(s)));
  }

  class Server {
    var msg: seq<Msg>
    var sends: seq<nat>
    var receives: nat
    var cq: seq<nat>
    var died: bool
    const buffer: array<nat>

    ghost predicate Matches(s: State)
      reads this, buffer
    {
      && msg == s.serverMsg && sends == s.ackWire && receives == s.serverRecvs && cq == s.serverCq && died == s.failed
      && buffer.Length == BUFFER_BYTES && SameBytes(buffer[..], s.serverBuf)
    }

    /** The network interface copies the next chunk into the buffer and reports it. */
    method Deliver(x: Chunk, ghost s: State)
      requires Enabled(s, WriteArrives) && s.serverRecvs > 0 && x.base + x.len <= BUFFER_BYTES
      requires CopyOf(x, s.writeWire[0], s.clientBuf) && Matches(s)
      modifies this, buffer
      ensures Matches(WriteArrived(s))
    {
      receives, cq := receives - 1, cq + [x.imm];
      buffer[x.base] := x.firstByte;
      buffer[x.base + x.len - 1] := x.lastByte;
    }

    static method ParseFromImmData(imm: nat) returns (windowId: nat, bufferId: nat, dataSize: nat)
      requires Word(imm)
      ensures ReadsAs(imm, bufferId, windowId, dataSize)
      ensures bufferId == imm % 256 && windowId == (imm / 256) % 256
      ensures dataSize == ((imm / 65536) % 256) * 256 + imm / 16777216
    {
      WireFields(imm);
      var recv := SwapBytes(imm);
      dataSize, bufferId, windowId := SizeField(recv), BufferField(recv), WindowField(recv);
    }

    /** Compares both ends of the chunk with the token and clears them; a mismatch ends the process. */
    method ProcessMessage(token: nat, base: nat, len: nat, ghost buf: map<nat, nat>)
      requires len > 0 && base + len <= buffer.Length && SameBytes(buffer[..], buf)
      modifies this`died, buffer
      ensures died == (old(died) || !Marked(buf, base, len, token))
      ensures died == (old(died) || old(buffer[base]) != token || old(buffer[base + len - 1]) != token)
      ensures old(buffer[base]) == old(buffer[base + len - 1]) == token ==> buffer[base] == buffer[base + len - 1] == 0
      ensures old(buffer[base]) != token || old(buffer[base + len - 1]) != token ==> buffer[..] == old(buffer[..])
      ensures forall i | 0 <= i < buffer.Length && i != base && i != base + len - 1 :: buffer[i] == old(buffer[i])
      ensures SameBytes(buffer[..], if Marked(buf, base, len, token) then Mark(buf, base, len, 0) else buf)
    {
      if token != buffer[base + len - 1] || token != buffer[base] {
        died := true;
      } else {
        MarkChunk(buffer, base, len, 0, buf);
      }
    }

    /** The first message allocates its own id as the slot of the batch. */
    method OpenBatchOf(echoMsgId: Option<nat>, bufferId: nat, windowId: nat) returns (slot: nat)
      requires echoMsgId.None? ==> bufferId < |msg|
      modifies this`msg
      ensures slot == if echoMsgId.Some? then echoMsgId.value else bufferId
      ensures msg == if echoMsgId.Some? then old(msg) else old(msg)[bufferId := Msg([], windowId)]
    {
      if echoMsgId.None? {
        slot := bufferId;
        msg := msg[slot := Msg([], windowId)];
      } else {
        slot := echoMsgId.value;
      }
    }

    /** Adds the token to its batch and sends the batch once it is full; the result is the slot still open. */
    method AddToken(slot: nat, bufferId: nat) returns (echo: Option<nat>)
      requires slot < |msg|
      modifies this`msg, this`sends
      ensures msg == old(msg)[slot := old(msg)[slot].(tokens := old(msg)[slot].tokens + [bufferId])]
      ensures echo == if |msg[slot].tokens| >= BATCH then None else Some(slot)
      ensures sends == if |msg[slot].tokens| >= BATCH then old(sends) + [slot] else old(sends)
    {
      msg := msg[slot := msg[slot].(tokens := msg[slot].tokens + [bufferId])];
      echo := Some(slot);
      if |msg[slot].tokens| >= BATCH {
        sends := sends + [slot];
        echo := None;
      }
    }

    /** One completion; `echoMsgId` is the slot of the open batch, if there is one. */
    method HandleWrite(echoMsgId: Option<nat>, ghost s: State) returns (echo: Option<nat>)
      requires Enabled(s, TakeWrite) && echoMsgId == s.echo && Matches(s)
      requires var imm := SwapBytes(s.serverCq[0]);
               SizeField(imm) > 0 && Offset(BufferField(imm), WindowField(imm)) + SizeField(imm) <= BUFFER_BYTES
      modifies this, buffer
      ensures Matches(WriteTaken(s)) && echo == WriteTaken(s).echo
    {
      var windowId, bufferId, dataSize := ParseFromImmData(cq[0]);
      var slot := OpenBatchOf(echoMsgId, bufferId, windowId);
      cq, receives := cq[1..], receives + 1;
      ProcessMessage(bufferId, Offset(bufferId, windowId), dataSize, s.serverBuf);
      echo := AddToken(slot, bufferId);
    }

    method DeliverNext(x: Chunk, ghost s: State, ghost acts: seq<Act>, ghost t: State, ghost first: nat, ghost start: nat)
      requires Inv(s, first, start) && Runs(s, acts, t) && Matches(t) && Incoming(t, [x])
      modifies this, buffer
      ensures Enabled(t, WriteArrives) && Runs(s, acts + [WriteArrives], WriteArrived(t)) && Matches(WriteArrived(t))
      ensures WriteArrived(t).writeWire == t.writeWire[1..] && WriteArrived(t).clientBuf == t.clientBuf && WriteArrived(t).echo == t.echo
      ensures |cq| == |old(cq)| + 1
    {
      RunInv(s, acts, first, start);
      NextOnWire(t, first, start);
      assert [x][0] == x;
      Deliver(x, t);
      RunExtends(s, acts, WriteArrives);
    }

    method DeliverAll(xs: seq<Chunk>, ghost s: State, ghost acts: seq<Act>, ghost t: State, ghost first: nat, ghost start: nat)
      returns (ghost acts': seq<Act>, ghost t': State)
      requires Inv(s, first, start) && Runs(s, acts, t) && Matches(t) && Incoming(t, xs)
      modifies this, buffer
      ensures Runs(s, acts', t') && Matches(t')
      ensures t'.writeWire == t.writeWire[|xs|..] && t'.clientBuf == t.clientBuf && t'.echo == t.echo
      ensures |cq| == |old(cq)| + |xs| && acts' == acts + Repeated(WriteArrives, |xs|)
    {
      acts', t' := acts, t;
      for k := 0 to |xs|
        invariant Runs(s, acts', t') && Matches(t')
        invariant t'.writeWire == t.writeWire[k..] && t'.clientBuf == t.clientBuf && t'.echo == t.echo
        invariant |cq| == |old(cq)| + k && acts' == acts + Repeated(WriteArrives, k)
      {
        IncomingAt(t, t', xs, k);
        RepeatedMore(acts, WriteArrives, k);
        DeliverNext(xs[k], s, acts', t', first, start);
        acts', t' := acts' + [WriteArrives], WriteArrived(t');
      }
    }

    method HandleNext(echoMsgId: Option<nat>, ghost s: State, ghost acts: seq<Act>, ghost t: State, ghost first: nat, ghost start: nat)
      returns (echo: Option<nat>)
      requires Inv(s, first, start) && Runs(s, acts, t) && Matches(t) && t.echo == echoMsgId && cq != []
      modifies this, buffer
      ensures Enabled(t, TakeWrite) && Runs(s, acts + [TakeWrite], WriteTaken(t)) && Matches(WriteTaken(t))
      ensures WriteTaken(t).echo == echo && WriteTaken(t).writeWire == t.writeWire && WriteTaken(t).clientBuf == t.clientBuf
      ensures |cq| == |old(cq)| - 1
    {
      RunInv(s, acts, first, start);
      FirstInQueue(t, first, start);
      echo := HandleWrite(echoMsgId, t);
      RunExtends(s, acts, TakeWrite);
    }

    /** The completions one poll has returned. */
    method HandleAll(echoMsgId: Option<nat>, ghost s: State, ghost acts: seq<Act>, ghost t: State, ghost first: nat, ghost start: nat)
      returns (echo: Option<nat>, ghost acts': seq<Act>, ghost t': State)
      requires Inv(s, first, start) && Runs(s, acts, t) && Matches(t) && t.echo == echoMsgId
      modifies this, buffer
      ensures Runs(s, acts', t') && Matches(t') && t'.echo == echo && cq == []
      ensures t'.writeWire == t.writeWire && t'.clientBuf == t.clientBuf && acts' == acts + Repeated(TakeWrite, |old(cq)|)
    {
      ghost var n: nat := 0;
      echo, acts', t' := echoMsgId, acts, t;
      while cq != []
        invariant Runs(s, acts', t') && Matches(t') && t'.echo == echo
        invariant t'.writeWire == t.writeWire && t'.clientBuf == t.clientBuf
        invariant n + |cq| == |old(cq)| && acts' == acts + Repeated(TakeWrite, n)
        decreases |cq|
      {
        RepeatedMore(acts, TakeWrite, n);
        echo := HandleNext(echo, s, acts', t', first, start);
        acts', t', n := acts' + [TakeWrite], WriteTaken(t'), n + 1;
      }
    }

    /** The send of what is left in the open batch. */
    method SendOpen(echoMsgId: Option<nat>, ghost s: State, ghost acts: seq<Act>, ghost t: State, ghost first: nat, ghost start: nat)
      returns (ghost acts': seq<Act>, ghost t': State)
      requires Inv(s, first, start) && Runs(s, acts, t) && Matches(t) && t.echo == echoMsgId
      modifies this
      ensures Runs(s, acts', t') && Matches(t') && t'.echo == None && cq == old(cq) && !died
      ensures acts' == acts + (if echoMsgId.Some? then [Flush] else [])
    {
      acts', t' := acts, t;
      RunInv(s, acts, first, start);
      if echoMsgId.Some? {
        RunExtends(s, acts, Flush);
        acts', t' := acts + [Flush], Step(t, Flush);
        sends := sends + [echoMsgId.value];
      }
    }

    /** One poll, and the handling of everything it took. */
    method PollOnce(arrivals: seq<seq<Chunk>>, round: nat, echoMsgId: Option<nat>,
                    ghost s: State, ghost acts: seq<Act>, ghost t: State, ghost first: nat, ghost start: nat)
      returns (nc: nat, echo: Option<nat>, ghost acts': seq<Act>, ghost t': State)
      requires Inv(s, first, start) && Runs(s, acts, t) && Matches(t) && t.echo == echoMsgId && Incoming(t, Later(arrivals, round))
      modifies this, buffer
      ensures Runs(s, acts', t') && Matches(t') && t'.echo == echo && Incoming(t', Later(arrivals, round + 1))
      ensures nc == |old(cq)| + |Batch(arrivals, round)| && cq == []
      ensures acts' == acts + Repeated(WriteArrives, |Batch(arrivals, round)|) + Repeated(TakeWrite, nc)
    {
      LaterNext(arrivals, round);
      ghost var rest := Later(arrivals, round + 1);
      var batch := Batch(arrivals, round);
      IncomingFirst(t, batch, rest);
      acts', t' := DeliverAll(batch, s, acts, t, first, start);
      IncomingRest(t, t', batch, rest);
      nc := |cq|;
      echo, acts', t' := HandleAll(echoMsgId, s, acts', t', first, start);
    }

    /** Before poll number `round`, when `queued` completions were waiting at the start. */
    ghost predicate AtPoll(s: State, acts: seq<Act>, t: State, echo: Option<nat>, arrivals: seq<seq<Chunk>>, queued: nat, round: nat)
      reads this, buffer
    {
      && Runs(s, acts, t) && Matches(t) && t.echo == echo && Incoming(t, Later(arrivals, round))
      && acts == PollActs(arrivals, queued, round) && |cq| == (if round == 0 then queued else 0)
    }

    method PollRound(arrivals: seq<seq<Chunk>>, ghost queued: nat, round: nat, echoMsgId: Option<nat>,
                     ghost s: State, ghost acts: seq<Act>, ghost t: State, ghost first: nat, ghost start: nat)
      returns (found: nat, echo: Option<nat>, ghost acts': seq<Act>, ghost t': State)
      requires Inv(s, first, start) && AtPoll(s, acts, t, echoMsgId, arrivals, queued, round)
      modifies this, buffer
      ensures found == Polled(arrivals, queued, round) && AtPoll(s, acts', t', echo, arrivals, queued, round + 1)
    {
      found, echo, acts', t' := PollOnce(arrivals, round, echoMsgId, s, acts, t, first, start);
    }

    /** Poll until nothing is left; `arrivals` are the writes that arrive before each of the polls. */
    method PollAll(arrivals: seq<seq<Chunk>>, ghost s: State, ghost first: nat, ghost start: nat)
      returns (echo: Option<nat>, ghost acts: seq<Act>, ghost t: State, ghost rounds: nat)
      requires Inv(s, first, start) && s.echo == None && Matches(s) && Incoming(s, Flatten(arrivals))
      modifies this, buffer
      ensures EndsAfter(arrivals, |old(cq)|, rounds) && AtPoll(s, acts, t, echo, arrivals, |old(cq)|, rounds)
    {
      ghost var queued := |cq|;
      acts, t, echo := [], s, None;
      LaterAll(arrivals);
      var nc, round: nat := 1, 0;
      while nc > 0
        invariant 0 <= nc && StillPolling(arrivals, queued, round, nc)
        invariant AtPoll(s, acts, t, echo, arrivals, queued, round)
        decreases |arrivals| + 1 - round
      {
        PollingEnds(arrivals, queued, round, nc);
        nc, echo, acts, t := PollRound(arrivals, queued, round, echo, s, acts, t, first, start);
        round := round + 1;
      }
      PollingEnds(arrivals, queued, round, nc);
      rounds := round;
    }

    /**
     One event: everything polled is handled, and what is left in the open batch is sent, once and at the end.
     The polls end with the first that finds nothing.
     */
    method PollCq(arrivals: seq<seq<Chunk>>, ghost s: State, ghost first: nat, ghost start: nat)
      returns (ghost acts: seq<Act>, ghost t: State, ghost rounds: nat)
      requires Inv(s, first, start) && s.echo == None && Matches(s) && Incoming(s, Flatten(arrivals))
      modifies this, buffer
      ensures Runs(s, acts, t) && Matches(t) && t.echo == None && cq == [] && !died
      ensures EndsAfter(arrivals, |old(cq)|, rounds)
      ensures var polled := PollActs(arrivals, |old(cq)|, rounds); acts == polled || acts == polled + [Flush]
    {
      var echo;
      echo, acts, t, rounds := PollAll(arrivals, s, first, start);
      acts, t := SendOpen(echo, s, acts, t, first, start);
    }
  }
}
