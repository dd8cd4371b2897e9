/** The run in which an ack of the sliding-window path finds no posted receive. */
module SlidingAckWaits {
  import opened ImmData
  import opened SlidingWindow
  import opened SlidingWindowProof
  import opened SlidingWindowRuns
  import opened Wrappers

  /** How many writes and acks are where; nothing of a batch is open. */
  predicate Counts(t: State, writes: nat, acks: nat, posted: nat, waiting: nat) {
    && t.serverCq == [] && t.echo == None
    && |t.writeWire| == writes && |t.ackWire| == acks && |t.recvQueue| == posted && |t.clientCq| == waiting
  }

  lemma ArriveShape(t: State, first: nat, start: nat)
    requires Inv(t, first, start) && t.writeWire != []
    ensures Enabled(t, WriteArrives)
    ensures var t' := Step(t, WriteArrives);
            && |t'.serverCq| == |t.serverCq| + 1 && |t'.writeWire| == |t.writeWire| - 1 && t'.echo == t.echo
            && t'.ackWire == t.ackWire && t'.recvQueue == t.recvQueue && t'.clientCq == t.clientCq && t'.current == t.current
  {
    WriteAt(t, first, start, 0);
  }

  lemma TakeShape(t: State, first: nat, start: nat)
    requires Inv(t, first, start) && |t.serverCq| == 1 && t.echo == None
    ensures Enabled(t, TakeWrite)
    ensures var t' := Step(t, TakeWrite);
            && t'.serverCq == [] && t'.echo.Some? && t'.writeWire == t.writeWire
            && t'.ackWire == t.ackWire && t'.recvQueue == t.recvQueue && t'.clientCq == t.clientCq && t'.current == t.current
  {
    TakeEnabled(t, first, start);
    TakenState(t, first, start);
  }

  /** The server answers one write with an ack of one token. */
  lemma OneAck(s: State, acts: seq<Act>, t: State, first: nat, start: nat, writes: nat, acks: nat, posted: nat, waiting: nat)
    returns (acts': seq<Act>, t': State)
    requires Path(s, acts, t, first, start) && Counts(t, writes, acks, posted, waiting) && writes > 0
    ensures Path(s, acts', t', first, start) && Counts(t', writes - 1, acks + 1, posted, waiting) && t'.current == t.current
  {
    ArriveShape(t, first, start);
    Grow(s, acts, t, WriteArrives, first, start);
    var t1 := Step(t, WriteArrives);
    TakeShape(t1, first, start);
    Grow(s, acts + [WriteArrives], t1, TakeWrite, first, start);
    var t2 := Step(t1, TakeWrite);
    Grow(s, acts + [WriteArrives] + [TakeWrite], t2, Flush, first, start);
    acts', t' := acts + [WriteArrives] + [TakeWrite] + [Flush], Step(t2, Flush);
  }

  /** The server answers `n` of the 128 writes one by one. */
  lemma {:induction false} AckAll(s: State, first: nat, start: nat, n: nat) returns (acts: seq<Act>, t: State)
    requires Initial(s, first, start) && n <= IN_FLIGHT
    ensures Path(s, acts, t, first, start) && Counts(t, IN_FLIGHT - n, n, IN_FLIGHT, 0) && t.current == None
  {
    if n == 0 {
      acts, t := [], s;
      InvInitial(s, first, start);
    } else {
      acts, t := AckAll(s, first, start, n - 1);
      acts, t := OneAck(s, acts, t, first, start, IN_FLIGHT - (n - 1), n - 1, IN_FLIGHT, 0);
    }
  }

  /** `n` of these acks arrive at the client. */
  lemma {:induction false} ArriveAll(s: State, first: nat, start: nat, n: nat) returns (acts: seq<Act>, t: State)
    requires Initial(s, first, start) && n <= IN_FLIGHT
    ensures Path(s, acts, t, first, start) && Counts(t, 0, IN_FLIGHT - n, IN_FLIGHT - n, n) && t.current == None
  {
    if n == 0 {
      acts, t := AckAll(s, first, start, IN_FLIGHT);
    } else {
      acts, t := ArriveAll(s, first, start, n - 1);
      AckInRange(t);
      Grow(s, acts, t, AckArrives, first, start);
      acts, t := acts + [AckArrives], Step(t, AckArrives);
    }
  }

  /** The client begins with the first of the 128 acks and reuses a token of it. */
  lemma ReuseOne(s: State, first: nat, start: nat) returns (acts: seq<Act>, t: State)
    requires Initial(s, first, start)
    ensures Path(s, acts, t, first, start) && Counts(t, 1, 0, 0, IN_FLIGHT - 1) && t.current.Some?
  {
    var acts0, t0 := ArriveAll(s, first, start, IN_FLIGHT);
    Grow(s, acts0, t0, StartAck, first, start);
    var t1 := Step(t0, StartAck);
    assert t0.clientMsg[t0.clientCq[0]].tokens != [];
    SendEnabled(t1, first, start);
    Grow(s, acts0 + [StartAck], t1, SendToken, first, start);
    acts, t := acts0 + [StartAck] + [SendToken], Step(t1, SendToken);
  }

  /** From every start there is a run after which an ack is in flight and the client has no receive posted. */
  lemma AckFindsNoReceive(s: State, first: nat, start: nat) returns (t: State, acts: seq<Act>)
    requires Initial(s, first, start)
    ensures IsRun(s, acts) && After(s, acts) == t && t.ackWire != [] && t.recvQueue == []
  {
    var acts0, t0 := ReuseOne(s, first, start);
    acts, t := OneAck(s, acts0, t0, first, start, 1, 0, 0, IN_FLIGHT - 1);
  }
}
