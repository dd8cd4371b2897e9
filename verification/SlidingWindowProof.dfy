/** Every step of the sliding-window machine keeps its invariant. */
module SlidingWindowProof {
  import opened ImmData
  import opened SlidingWindow
  import opened Wrappers

  // A step keeps the parts of the invariant whose fields it leaves alone.

  lemma KeepWrites(s: State, s': State, write: nat -> Write)
    requires Outstanding(s) <= IN_FLIGHT && WritesInv(s, write) && MarksInv(s, write)
    requires s'.serverCq == s.serverCq && s'.writeWire == s.writeWire && s'.serverRecvs == s.serverRecvs && s'.sent == s.sent
    requires s'.serverBuf == s.serverBuf && s'.clientBuf == s.clientBuf
    ensures Outstanding(s') <= IN_FLIGHT && WritesInv(s', write) && MarksInv(s', write)
  {
    assert Oldest(s') == Oldest(s);
  }

  lemma KeepSlots(s: State, s': State)
    requires SlotsInv(s) && |s'.serverMsg| == |s.serverMsg|
    requires s'.recvQueue == s.recvQueue && s'.clientCq == s.clientCq && s'.clientMsg == s.clientMsg && s'.current == s.current
    ensures SlotsInv(s')
  {
    forall i: nat ensures SlotUses(s', i) <= Bit(i < IN_FLIGHT) {
      assert SlotUses(s', i) == SlotUses(s, i);
    }
  }

  lemma KeepWindow(s: State, s': State, start: nat)
    requires WindowInv(s, start) && s'.window == s.window && s'.sent == s.sent && s'.current == s.current
    ensures WindowInv(s', start)
  {
  }

  lemma KeepBatch(s: State, s': State)
    requires |s.serverMsg| == IN_FLIGHT && BatchInv(s)
    requires s'.serverMsg == s.serverMsg && s'.ackWire == s.ackWire && s'.echo == s.echo
    ensures BatchInv(s')
  {
    forall i | 0 <= i < |s'.ackWire| ensures s'.ackWire[i] < IN_FLIGHT && InOwnSlot(s', s'.ackWire[i]) {
      assert InOwnSlot(s, s.ackWire[i]);
    }
  }

  lemma WriteArrivesWrites(s: State, write: nat -> Write)
    requires Outstanding(s) <= IN_FLIGHT && WritesInv(s, write) && Enabled(s, WriteArrives)
    ensures var s' := WriteArrived(s);
            s.serverRecvs > 0 && Outstanding(s') == Outstanding(s) && WritesInv(s', write)
  {
    assert Oldest(WriteArrived(s)) == Oldest(s);
    assert s.writeWire[0] == write(Oldest(s) + |s.serverCq|);
  }

  lemma WriteArrivesMarks(s: State, write: nat -> Write)
    requires Outstanding(s) <= IN_FLIGHT && WritesInv(s, write) && MarksInv(s, write) && Spaced(write)
    requires Enabled(s, WriteArrives) && s.serverRecvs > 0 && Outstanding(WriteArrived(s)) == Outstanding(s)
    ensures MarksInv(WriteArrived(s), write)
  {
    var s' := WriteArrived(s);
    var k := Oldest(s) + |s.serverCq|;
    var x := s.writeWire[0];
    assert x == write(k);
    assert MarkedFor(s.clientBuf, write, k);
    forall m: nat | Oldest(s') <= m < Oldest(s') + |s'.serverCq| ensures MarkedFor(s'.serverBuf, write, m) {
      if m < k {
        assert MarkedFor(s.serverBuf, write, m);
        MarkKeepsOthers(s.serverBuf, write, k, m, Byte(s.clientBuf, x.base), Byte(s.clientBuf, x.base + x.len - 1));
      }
    }
  }

  lemma InvWriteArrives(s: State, write: nat -> Write, start: nat)
    requires InvFor(s, write, start) && Spaced(write) && Enabled(s, WriteArrives)
    ensures InvFor(WriteArrived(s), write, start)
  {
    var s' := WriteArrived(s);
    WriteArrivesWrites(s, write);
    WriteArrivesMarks(s, write);
    KeepSlots(s, s');
    KeepBatch(s, s');
    assert Acked(s') == Acked(s);
  }

  lemma FlushBatch(s: State)
    requires |s.serverMsg| == IN_FLIGHT && BatchInv(s) && Enabled(s, Flush)
    ensures BatchInv(Step(s, Flush))
  {
    var s' := Step(s, Flush);
    forall i | 0 <= i < |s'.ackWire| ensures s'.ackWire[i] < IN_FLIGHT && InOwnSlot(s', s'.ackWire[i]) {
      if i < |s.ackWire| {
        assert InOwnSlot(s, s.ackWire[i]);
      }
    }
  }

  lemma FlushTokens(s: State)
    requires Enabled(s, Flush)
    ensures Acked(Step(s, Flush)) == Acked(s)
  {
    var s' := Step(s, Flush);
    CatBack(s.serverMsg, s.ackWire, s.echo.value);
    assert OpenBatch(s') == [];
    assert Cat(s'.serverMsg, s'.ackWire) + OpenBatch(s') == Cat(s.serverMsg, s.ackWire) + OpenBatch(s);
    assert Remaining(s') == Remaining(s);
    SameTail(Remaining(s) + Cat(s.clientMsg, s.clientCq), Cat(s.serverMsg, s.ackWire), OpenBatch(s),
             Cat(s'.serverMsg, s'.ackWire), OpenBatch(s'));
  }

  lemma SameTail<T>(a: seq<T>, b: seq<T>, c: seq<T>, b': seq<T>, c': seq<T>)
    requires b' + c' == b + c
    ensures a + b' + c' == a + b + c
  {
    assert a + b' + c' == a + (b' + c');
    assert a + b + c == a + (b + c);
  }

  lemma InvFlush(s: State, write: nat -> Write, start: nat)
    requires InvFor(s, write, start) && Enabled(s, Flush)
    ensures InvFor(Step(s, Flush), write, start)
  {
    var s' := Step(s, Flush);
    KeepWrites(s, s', write);
    KeepSlots(s, s');
    FlushBatch(s);
    FlushTokens(s);
  }

  lemma StartAckSlots(s: State)
    requires SlotsInv(s) && Enabled(s, StartAck)
    ensures SlotsInv(Step(s, StartAck))
  {
    var s' := Step(s, StartAck);
    var slot := s.clientCq[0];
    assert s.clientCq == [slot] + s.clientCq[1..];
    forall i: nat ensures SlotUses(s', i) <= Bit(i < IN_FLIGHT) {
      assert SlotUses(s', i) == SlotUses(s, i);
    }
  }

  lemma StartAckTokens(s: State)
    requires |s.clientCq| > 0 && s.clientCq[0] < |s.clientMsg| && Enabled(s, StartAck)
    ensures Acked(Step(s, StartAck)) == Acked(s)
  {
    var s' := Step(s, StartAck);
    CatFront(s.clientMsg, s.clientCq);
    assert Remaining(s') == Tokens(s.clientMsg, s.clientCq[0]);
    assert Remaining(s) == [];
    assert Remaining(s) + Cat(s.clientMsg, s.clientCq) == Remaining(s') + Cat(s'.clientMsg, s'.clientCq);
  }

  lemma StartAckWindow(s: State, start: nat)
    requires WindowInv(s, start) && Enabled(s, StartAck)
    ensures WindowInv(Step(s, StartAck), start) && Step(s, StartAck).sent == s.sent && Step(s, StartAck).window == s.window
  {
  }

  lemma InvStartAck(s: State, write: nat -> Write, start: nat)
    requires InvFor(s, write, start) && Enabled(s, StartAck)
    ensures InvFor(Step(s, StartAck), write, start)
  {
    var s' := Step(s, StartAck);
    KeepWrites(s, s', write);
    KeepBatch(s, s');
    StartAckSlots(s);
    StartAckTokens(s);
    StartAckWindow(s, start);
  }

  lemma EndAckSlots(s: State)
    requires SlotsInv(s) && Enabled(s, EndAck)
    ensures SlotsInv(Step(s, EndAck)) && Acked(Step(s, EndAck)) == Acked(s)
  {
    var s' := Step(s, EndAck);
    forall i: nat ensures SlotUses(s', i) <= Bit(i < IN_FLIGHT) {
      assert SlotUses(s', i) == SlotUses(s, i);
    }
  }

  lemma InvEndAck(s: State, write: nat -> Write, start: nat)
    requires InvFor(s, write, start) && Enabled(s, EndAck)
    ensures InvFor(Step(s, EndAck), write, start)
  {
    var s' := Step(s, EndAck);
    KeepWrites(s, s', write);
    KeepBatch(s, s');
    EndAckSlots(s);
  }

  /** The slot an ack arrives in is posted, hence neither waiting nor being worked through. */
  lemma AckArrivesSlots(s: State)
    requires SlotsInv(s) && BatchInv(s) && Enabled(s, AckArrives)
    ensures SlotsInv(AckArrived(s))
    ensures s.recvQueue[0] !in s.clientCq && !(s.current.Some? && s.current.value.slot == s.recvQueue[0])
  {
    var s' := AckArrived(s);
    var r := s.recvQueue[0];
    assert s.recvQueue == [r] + s.recvQueue[1..];
    assert SlotUses(s, r) <= 1;
    assert r !in multiset(s.clientCq);
    forall i: nat ensures SlotUses(s', i) <= Bit(i < IN_FLIGHT) {
      assert SlotUses(s', i) == SlotUses(s, i);
    }
    assert InOwnSlot(s, s.ackWire[0]);
  }

  lemma Regroup<T>(a: seq<T>, b: seq<T>, c: seq<T>, d: seq<T>)
    ensures a + (b + c) + d == a + b + (c + d)
  {
  }

  lemma AckArrivesTokens(s: State)
    requires SlotsInv(s) && Enabled(s, AckArrives)
    requires s.recvQueue[0] !in s.clientCq && !(s.current.Some? && s.current.value.slot == s.recvQueue[0])
    ensures Acked(AckArrived(s)) == Acked(s)
  {
    var s' := AckArrived(s);
    var tokens := s.serverMsg[s.ackWire[0]].tokens;
    CatSame(s.clientMsg, s'.clientMsg, s.clientCq);
    CatBack(s'.clientMsg, s.clientCq, s.recvQueue[0]);
    assert Cat(s'.clientMsg, s'.clientCq) == Cat(s.clientMsg, s.clientCq) + tokens;
    CatFront(s.serverMsg, s.ackWire);
    assert Cat(s.serverMsg, s.ackWire) == tokens + Cat(s'.serverMsg, s'.ackWire);
    assert Remaining(s') == Remaining(s) && OpenBatch(s') == OpenBatch(s);
    Regroup(Remaining(s), Cat(s.clientMsg, s.clientCq), tokens, Cat(s'.serverMsg, s'.ackWire));
  }

  lemma InvAckArrives(s: State, write: nat -> Write, start: nat)
    requires InvFor(s, write, start) && Enabled(s, AckArrives)
    ensures InvFor(Step(s, AckArrives), write, start)
  {
    var s' := Step(s, AckArrives);
    KeepWrites(s, s', write);
    AckArrivesSlots(s);
    AckArrivesTokens(s);
    AckArrivesBatch(s);
  }

  lemma AckArrivesBatch(s: State)
    requires |s.serverMsg| == IN_FLIGHT && BatchInv(s) && Enabled(s, AckArrives)
    ensures BatchInv(AckArrived(s))
  {
    var s' := AckArrived(s);
    forall i | 0 <= i < |s'.ackWire| ensures s'.ackWire[i] < IN_FLIGHT && InOwnSlot(s', s'.ackWire[i]) {
      assert InOwnSlot(s, s.ackWire[i + 1]);
    }
  }

  // Reusing a token.

  /** The next token is the number of the write it is used for, modulo 128. */
  lemma NextToken(s: State)
    requires TokensInv(s) && SlotsInv(s) && Enabled(s, SendToken)
    ensures Remaining(s) != [] && Remaining(s)[0] == s.sent % IN_FLIGHT && Outstanding(s) < IN_FLIGHT
    ensures s.clientMsg[s.current.value.slot].tokens[s.current.value.next] == s.sent % IN_FLIGHT
  {
    assert Acked(s)[0] == Remaining(s)[0];
  }

  lemma DropFirst<T>(a: seq<T>, b: seq<T>, c: seq<T>, d: seq<T>)
    requires a != []
    ensures a[1..] + b + c + d == (a + b + c + d)[1..]
  {
  }

  lemma CycleTail(lo: nat, n: nat)
    requires n > 0
    ensures Cycle(lo + 1, n - 1) == Cycle(lo, n)[1..]
  {
  }

  lemma SendTokenTokens(s: State)
    requires TokensInv(s) && SlotsInv(s) && Enabled(s, SendToken)
    ensures TokensInv(TokenSent(s))
  {
    var s' := TokenSent(s);
    NextToken(s);
    assert Remaining(s') == Remaining(s)[1..];
    DropFirst(Remaining(s), Cat(s.clientMsg, s.clientCq), Cat(s.serverMsg, s.ackWire), OpenBatch(s));
    assert Acked(s') == Acked(s)[1..];
    assert Outstanding(s') == Outstanding(s) + 1;
    CycleTail(s.sent, IN_FLIGHT - Outstanding(s));
  }

  lemma SendTokenSlots(s: State)
    requires SlotsInv(s) && Enabled(s, SendToken)
    ensures SlotsInv(TokenSent(s))
  {
    var s' := TokenSent(s);
    forall i: nat ensures SlotUses(s', i) <= Bit(i < IN_FLIGHT) {
      assert SlotUses(s', i) == SlotUses(s, i);
    }
  }

  /** The write posted for a token is the one its number predicts, and the window slides after id 127. */
  lemma SendTokenWrite(s: State, first: nat, start: nat)
    requires TokensInv(s) && SlotsInv(s) && WindowInv(s, start) && Enabled(s, SendToken)
    ensures WindowInv(TokenSent(s), start)
    ensures TokenSent(s).writeWire == s.writeWire + [WriteOf(first, start, s.sent + IN_FLIGHT)]
    ensures TokenSent(s).clientBuf == Mark(s.clientBuf, WriteOf(first, start, s.sent + IN_FLIGHT).base, BUFFER_SIZE, s.sent % IN_FLIGHT)
  {
    NextToken(s);
    var cur := s.current.value;
    assert WindowOf(first, start, s.sent + IN_FLIGHT) == cur.window;
    assert (s.sent + IN_FLIGHT) % IN_FLIGHT == s.sent % IN_FLIGHT;
    Slide(s.sent, start);
  }

  lemma Slide(n: nat, start: nat)
    ensures var w := (start + n / IN_FLIGHT) % WINDOWS;
            (start + (n + 1) / IN_FLIGHT) % WINDOWS == if n % IN_FLIGHT == IN_FLIGHT - 1 then (w + 1) % WINDOWS else w
  {
  }

  lemma SendTokenWrites(s: State, s': State, write: nat -> Write)
    requires Outstanding(s) < IN_FLIGHT && WritesInv(s, write)
    requires s'.writeWire == s.writeWire + [write(s.sent + IN_FLIGHT)] && s'.sent == s.sent + 1
    requires s'.serverCq == s.serverCq && s'.serverRecvs == s.serverRecvs
    ensures WritesInv(s', write)
  {
    assert Oldest(s') == Oldest(s);
    assert Oldest(s) + |s.serverCq| + |s.writeWire| == s.sent + IN_FLIGHT;
  }

  lemma SendTokenMarks(s: State, s': State, write: nat -> Write)
    requires Outstanding(s) < IN_FLIGHT && MarksInv(s, write) && Spaced(write)
    requires |s'.writeWire| == |s.writeWire| + 1 && s'.sent == s.sent + 1
    requires s'.clientBuf == Mark(s.clientBuf, write(s.sent + IN_FLIGHT).base, BUFFER_SIZE, s.sent % IN_FLIGHT)
    requires s'.serverCq == s.serverCq && s'.serverBuf == s.serverBuf
    ensures MarksInv(s', write)
  {
    var k := s.sent + IN_FLIGHT;
    assert Oldest(s') == Oldest(s);
    forall m: nat | Oldest(s') + |s'.serverCq| <= m < s'.sent + IN_FLIGHT ensures MarkedFor(s'.clientBuf, write, m) {
      if m < k {
        assert MarkedFor(s.clientBuf, write, m);
        MarkKeepsOthers(s.clientBuf, write, k, m, s.sent % IN_FLIGHT, s.sent % IN_FLIGHT);
      }
    }
  }

  /** What sending the next token does, for the write its number predicts. */
  ghost predicate Sent(s: State, s': State, write: nat -> Write) {
    && s'.failed == s.failed && s'.sent == s.sent + 1
    && s'.writeWire == s.writeWire + [write(s.sent + IN_FLIGHT)]
    && s'.clientBuf == Mark(s.clientBuf, write(s.sent + IN_FLIGHT).base, BUFFER_SIZE, s.sent % IN_FLIGHT)
    && s'.serverCq == s.serverCq && s'.serverRecvs == s.serverRecvs && s'.serverBuf == s.serverBuf
    && s'.serverMsg == s.serverMsg && s'.ackWire == s.ackWire && s'.echo == s.echo
  }

  lemma SentKeepsInv(s: State, s': State, write: nat -> Write, start: nat)
    requires InvFor(s, write, start) && Spaced(write) && Sent(s, s', write) && Outstanding(s) < IN_FLIGHT
    requires TokensInv(s') && SlotsInv(s') && WindowInv(s', start)
    ensures InvFor(s', write, start)
  {
    SendTokenWrites(s, s', write);
    SendTokenMarks(s, s', write);
    KeepBatch(s, s');
  }

  lemma InvSendToken(s: State, first: nat, start: nat)
    requires Inv(s, first, start) && Enabled(s, SendToken)
    ensures Inv(TokenSent(s), first, start)
  {
    WritesSpaced(first, start);
    NextToken(s);
    SendTokenTokens(s);
    SendTokenSlots(s);
    SendTokenWrite(s, first, start);
    SentKeepsInv(s, TokenSent(s), Writes(first, start), start);
  }

  // Taking a write.

  /** The completion the server takes names buffer, window and size of the oldest write, and its chunk is marked. */
  lemma TakenWrite(s: State, first: nat, start: nat)
    requires Outstanding(s) <= IN_FLIGHT && WritesInv(s, Writes(first, start)) && MarksInv(s, Writes(first, start))
    requires s.serverCq != []
    ensures var imm := SwapBytes(WriteOf(first, start, Oldest(s)).imm);
            && s.serverCq[0] == WriteOf(first, start, Oldest(s)).imm && Word(s.serverCq[0])
            && BufferField(imm) == Oldest(s) % IN_FLIGHT && WindowField(imm) == WindowOf(first, start, Oldest(s))
            && SizeField(imm) == BUFFER_SIZE
    ensures Marked(s.serverBuf, WriteOf(first, start, Oldest(s)).base, BUFFER_SIZE, Oldest(s) % IN_FLIGHT)
  {
    WriteFields(first, start, Oldest(s));
    assert s.serverCq[0] == Writes(first, start)(Oldest(s) + 0).imm;
    assert MarkedFor(s.serverBuf, Writes(first, start), Oldest(s));
  }

  /** An id occurs once among the tokens held, and the next to be taken is not among them. */
  lemma AckedOnce(s: State, p: nat, q: nat)
    requires TokensInv(s) && p < |Acked(s)| && p < q < p + IN_FLIGHT
    ensures Acked(s)[p] != (s.sent + q) % IN_FLIGHT
  {
    assert Acked(s)[p] == (s.sent + p) % IN_FLIGHT;
  }

  /** No ack in flight uses the slot of the open batch, or the slot the next write would open. */
  lemma BatchSlotFree(s: State, i: nat)
    requires TokensInv(s) && |s.serverMsg| == IN_FLIGHT && BatchInv(s) && s.serverCq != [] && i < |s.ackWire|
    ensures s.ackWire[i] != (if s.echo.Some? then s.echo.value else Oldest(s) % IN_FLIGHT)
  {
    var slot := s.ackWire[i];
    assert InOwnSlot(s, slot);
    CatHas(s.serverMsg, s.ackWire, i, slot);
    var before := Remaining(s) + Cat(s.clientMsg, s.clientCq);
    var cat := Cat(s.serverMsg, s.ackWire);
    var j: nat :| j < |cat| && cat[j] == slot;
    var p := |before| + j;
    assert Acked(s) == before + cat + OpenBatch(s);
    assert Acked(s)[p] == slot;
    if s.echo.Some? {
      assert InOwnSlot(s, s.echo.value);
      assert Acked(s)[|before + cat|] == OpenBatch(s)[0];
      AckedOnce(s, p, |before + cat|);
    } else {
      AckedOnce(s, p, |Acked(s)|);
    }
  }

  /** The slot of the batch a taken write goes into. */
  function BatchSlot(s: State, id: nat): nat {
    if s.echo.Some? then s.echo.value else id
  }

  /** What taking the oldest write does, said without the immediate. */
  ghost predicate Taken(s: State, s': State, write: nat -> Write)
    requires Outstanding(s) <= IN_FLIGHT
  {
    var id := Oldest(s) % IN_FLIGHT;
    && s'.failed == s.failed && s'.sent == s.sent && s'.window == s.window && s.serverCq != []
    && s'.serverCq == s.serverCq[1..] && s'.serverRecvs == s.serverRecvs + 1
    && s'.writeWire == s.writeWire && s'.clientBuf == s.clientBuf
    && s'.recvQueue == s.recvQueue && s'.clientMsg == s.clientMsg && s'.clientCq == s.clientCq && s'.current == s.current
    && s'.serverBuf == Mark(s.serverBuf, write(Oldest(s)).base, BUFFER_SIZE, 0)
    && Batched(s, s', BatchSlot(s, id), id)
  }

  ghost predicate Batched(s: State, s': State, slot: nat, id: nat) {
    var full := |OpenBatch(s)| + 1 == BATCH;
    && |s.serverMsg| == |s'.serverMsg| == IN_FLIGHT && slot < IN_FLIGHT
    && s'.serverMsg[slot].tokens == OpenBatch(s) + [id]
    && (forall i | 0 <= i < IN_FLIGHT && i != slot :: s'.serverMsg[i] == s.serverMsg[i])
    && s'.echo == (if full then None else Some(slot))
    && s'.ackWire == (if full then s.ackWire + [slot] else s.ackWire)
  }

  lemma TakenState(s: State, first: nat, start: nat)
    requires Outstanding(s) <= IN_FLIGHT && WritesInv(s, Writes(first, start)) && MarksInv(s, Writes(first, start))
    requires |s.serverMsg| == IN_FLIGHT && BatchInv(s) && Enabled(s, TakeWrite)
    ensures Taken(s, WriteTaken(s), Writes(first, start))
  {
    TakenWrite(s, first, start);
  }

  lemma TakeWriteBatches(s: State, s': State, slot: nat, id: nat)
    requires |s.serverMsg| == |s'.serverMsg| == IN_FLIGHT
    requires slot < IN_FLIGHT && (forall i | 0 <= i < |s.ackWire| :: s.ackWire[i] != slot)
    requires s'.serverMsg[slot].tokens == OpenBatch(s) + [id]
    requires forall i | 0 <= i < IN_FLIGHT && i != slot :: s'.serverMsg[i] == s.serverMsg[i]
    requires (s'.echo == Some(slot) && s'.ackWire == s.ackWire) || (s'.echo == None && s'.ackWire == s.ackWire + [slot])
    ensures Cat(s'.serverMsg, s'.ackWire) + OpenBatch(s') == Cat(s.serverMsg, s.ackWire) + (OpenBatch(s) + [id])
  {
    CatSame(s.serverMsg, s'.serverMsg, s.ackWire);
    CatBack(s'.serverMsg, s.ackWire, slot);
  }

  lemma {:induction false} CycleGrows(lo: nat, n: nat)
    ensures Cycle(lo, n + 1) == Cycle(lo, n) + [(lo + n) % IN_FLIGHT]
  {
  }

  lemma TakeWriteTokens(s: State, s': State, id: nat)
    requires TokensInv(s) && Outstanding(s) > 0 && id == Oldest(s) % IN_FLIGHT
    requires Cat(s'.serverMsg, s'.ackWire) + OpenBatch(s') == Cat(s.serverMsg, s.ackWire) + (OpenBatch(s) + [id])
    requires Remaining(s') == Remaining(s) && Cat(s'.clientMsg, s'.clientCq) == Cat(s.clientMsg, s.clientCq)
    requires s'.sent == s.sent && Outstanding(s') == Outstanding(s) - 1
    ensures TokensInv(s')
  {
    AppendLast(Remaining(s) + Cat(s.clientMsg, s.clientCq), Cat(s.serverMsg, s.ackWire), OpenBatch(s),
               Cat(s'.serverMsg, s'.ackWire), OpenBatch(s'), id);
    assert Acked(s') == Acked(s) + [id];
    CycleGrows(s.sent, IN_FLIGHT - Outstanding(s));
  }

  lemma AppendLast<T>(a: seq<T>, b: seq<T>, c: seq<T>, b': seq<T>, c': seq<T>, x: T)
    requires b' + c' == b + (c + [x])
    ensures a + b' + c' == a + b + c + [x]
  {
    assert a + b' + c' == a + (b' + c');
  }

  lemma TakeWriteBatch(s: State, s': State, slot: nat, id: nat)
    requires |s.serverMsg| == IN_FLIGHT && BatchInv(s) && slot == BatchSlot(s, id) && Batched(s, s', slot, id)
    requires forall i | 0 <= i < |s.ackWire| :: s.ackWire[i] != slot
    ensures BatchInv(s')
  {
    if s.echo.Some? {
      assert InOwnSlot(s, slot);
    }
    assert InOwnSlot(s', slot);
    forall i | 0 <= i < |s'.ackWire| ensures s'.ackWire[i] < IN_FLIGHT && InOwnSlot(s', s'.ackWire[i]) {
      if i < |s.ackWire| {
        assert InOwnSlot(s, s.ackWire[i]);
      }
    }
  }

  lemma TakeWriteWrites(s: State, s': State, write: nat -> Write)
    requires Outstanding(s) <= IN_FLIGHT && WritesInv(s, write) && s.serverCq != []
    requires s'.serverCq == s.serverCq[1..] && s'.serverRecvs == s.serverRecvs + 1 && s'.sent == s.sent
    requires s'.writeWire == s.writeWire
    ensures Outstanding(s') == Outstanding(s) - 1 && Oldest(s') == Oldest(s) + 1 && WritesInv(s', write)
  {
    forall i | 0 <= i < |s'.serverCq| ensures s'.serverCq[i] == write(Oldest(s') + i).imm {
      assert s.serverCq[i + 1] == write(Oldest(s) + (i + 1)).imm;
    }
  }

  lemma TakeWriteMarks(s: State, s': State, write: nat -> Write)
    requires Outstanding(s) <= IN_FLIGHT && MarksInv(s, write) && Spaced(write) && s.serverCq != []
    requires |s'.serverCq| == |s.serverCq| - 1 && s'.sent == s.sent
    requires |s'.writeWire| == |s.writeWire| && s'.clientBuf == s.clientBuf
    requires s'.serverBuf == Mark(s.serverBuf, write(Oldest(s)).base, BUFFER_SIZE, 0)
    ensures MarksInv(s', write)
  {
    var k := Oldest(s);
    assert Oldest(s') == k + 1;
    forall m: nat | Oldest(s') <= m < Oldest(s') + |s'.serverCq| ensures MarkedFor(s'.serverBuf, write, m) {
      assert MarkedFor(s.serverBuf, write, m);
      MarkKeepsOthers(s.serverBuf, write, k, m, 0, 0);
    }
  }

  lemma TakeWriteSlots(s: State, s': State, slot: nat, id: nat)
    requires TokensInv(s) && |s.serverMsg| == IN_FLIGHT && BatchInv(s) && s.serverCq != []
    requires id == Oldest(s) % IN_FLIGHT && slot == BatchSlot(s, id) && Batched(s, s', slot, id)
    requires s'.clientMsg == s.clientMsg && s'.clientCq == s.clientCq && s'.current == s.current
    requires s'.sent == s.sent && Outstanding(s') == Outstanding(s) - 1
    ensures TokensInv(s') && BatchInv(s')
  {
    forall i | 0 <= i < |s.ackWire| ensures s.ackWire[i] != slot {
      BatchSlotFree(s, i);
    }
    TakeWriteBatches(s, s', slot, id);
    TakeWriteTokens(s, s', id);
    TakeWriteBatch(s, s', slot, id);
  }

  lemma TakenKeepsInv(s: State, s': State, write: nat -> Write, start: nat)
    requires InvFor(s, write, start) && Spaced(write) && Taken(s, s', write)
    ensures InvFor(s', write, start)
  {
    var id := Oldest(s) % IN_FLIGHT;
    TakeWriteWrites(s, s', write);
    TakeWriteMarks(s, s', write);
    KeepWindow(s, s', start);
    TakeWriteSlots(s, s', BatchSlot(s, id), id);
    KeepSlots(s, s');
  }

  lemma InvTakeWrite(s: State, first: nat, start: nat)
    requires Inv(s, first, start) && Enabled(s, TakeWrite)
    ensures Inv(WriteTaken(s), first, start)
  {
    WritesSpaced(first, start);
    TakenState(s, first, start);
    TakenKeepsInv(s, WriteTaken(s), Writes(first, start), start);
  }

  lemma InvStep(s: State, act: Act, first: nat, start: nat)
    requires Inv(s, first, start) && Enabled(s, act)
    ensures Inv(Step(s, act), first, start)
  {
    var write := Writes(first, start);
    WritesSpaced(first, start);
    match act
    case WriteArrives => InvWriteArrives(s, write, start);
    case AckArrives => InvAckArrives(s, write, start);
    case TakeWrite => InvTakeWrite(s, first, start);
    case Flush => InvFlush(s, write, start);
    case StartAck => InvStartAck(s, write, start);
    case SendToken => InvSendToken(s, first, start);
    case EndAck => InvEndAck(s, write, start);
  }

  lemma {:induction false} CycleOnce(n: nat, i: nat)
    requires n <= IN_FLIGHT
    ensures multiset(Cycle(0, n))[i] == Bit(i < n)
  {
    if n > 0 {
      CycleOnce(n - 1, i);
      assert Cycle(0, n) == Cycle(0, n - 1) + [n - 1];
    } else {
      assert Cycle(0, n) == [];
    }
  }

  lemma InitSlots(s: State)
    requires |s.recvQueue| == IN_FLIGHT && multiset(s.recvQueue) == multiset(Cycle(0, IN_FLIGHT))
    requires s.clientCq == [] && s.current == None
    requires |s.clientMsg| == |s.serverMsg| == IN_FLIGHT
    ensures SlotsInv(s)
  {
    forall i: nat ensures SlotUses(s, i) <= Bit(i < IN_FLIGHT) {
      CycleOnce(IN_FLIGHT, i);
    }
  }

  lemma InitWrites(s: State, write: nat -> Write)
    requires s.sent == 0 && s.serverCq == [] && s.serverRecvs == |s.writeWire| == IN_FLIGHT
    requires forall m: nat | m < IN_FLIGHT :: MarkedFor(s.clientBuf, write, m)
    requires forall i: nat | i < IN_FLIGHT :: s.writeWire[i] == write(i)
    ensures Outstanding(s) == IN_FLIGHT && WritesInv(s, write) && MarksInv(s, write)
  {
    assert Oldest(s) == 0;
  }

  lemma InitTokens(s: State)
    requires s.current == None && s.clientCq == [] && s.ackWire == [] && s.echo == None && s.sent == 0
    requires Outstanding(s) == IN_FLIGHT
    ensures TokensInv(s)
  {
    assert Acked(s) == [];
  }

  lemma InvInitial(s: State, first: nat, start: nat)
    requires Initial(s, first, start)
    ensures Inv(s, first, start)
  {
    InitSlots(s);
    InitWrites(s, Writes(first, start));
    InitTokens(s);
  }

  /** A run: every step is enabled when it is taken. */
  predicate IsRun(s: State, acts: seq<Act>)
    decreases |acts|
  {
    acts == [] || (Enabled(s, acts[0]) && IsRun(Step(s, acts[0]), acts[1..]))
  }

  function After(s: State, acts: seq<Act>): State
    requires IsRun(s, acts)
    decreases |acts|
  {
    if acts == [] then s else After(Step(s, acts[0]), acts[1..])
  }

  lemma {:induction false} RunInv(s: State, acts: seq<Act>, first: nat, start: nat)
    requires Inv(s, first, start) && IsRun(s, acts)
    ensures Inv(After(s, acts), first, start)
    decreases |acts|
  {
    if acts != [] {
      InvStep(s, acts[0], first, start);
      RunInv(Step(s, acts[0]), acts[1..], first, start);
    }
  }

  lemma {:induction false} RunExtends(s: State, acts: seq<Act>, act: Act)
    requires IsRun(s, acts) && Enabled(After(s, acts), act)
    ensures IsRun(s, acts + [act]) && After(s, acts + [act]) == Step(After(s, acts), act)
    decreases |acts|
  {
    if acts == [] {
      assert (acts + [act])[1..] == [];
    } else {
      assert (acts + [act])[1..] == acts[1..] + [act];
      RunExtends(Step(s, acts[0]), acts[1..], act);
    }
  }

  predicate Runs(s: State, acts: seq<Act>, t: State) {
    IsRun(s, acts) && After(s, acts) == t
  }

  /** The steps lead from `s` to `t`, which fulfils the invariant. */
  ghost predicate Path(s: State, acts: seq<Act>, t: State, first: nat, start: nat) {
    Runs(s, acts, t) && Inv(t, first, start)
  }

  lemma Grow(s: State, acts: seq<Act>, t: State, act: Act, first: nat, start: nat)
    requires Path(s, acts, t, first, start) && Enabled(t, act)
    ensures Path(s, acts + [act], Step(t, act), first, start)
  {
    RunExtends(s, acts, act);
    InvStep(t, act, first, start);
  }
}
