/** What the invariant gives in every run of the sliding-window machine. */
module SlidingWindowRuns {
  import opened ImmData
  import opened SlidingWindow
  import opened SlidingWindowProof
  import opened Wrappers

  // What holds in every run from a state with all ids outstanding in order.

  function WireIds(writes: seq<Write>): (ids: seq<nat>)
    requires forall i | 0 <= i < |writes| :: Word(writes[i].imm)
  {
    seq(|writes|, i requires 0 <= i < |writes| => BufferField(SwapBytes(writes[i].imm)))
  }

  function QueuedIds(imms: seq<nat>): (ids: seq<nat>)
    requires forall i | 0 <= i < |imms| :: Word(imms[i])
  {
    seq(|imms|, i requires 0 <= i < |imms| => BufferField(SwapBytes(imms[i])))
  }

  lemma WriteAt(s: State, first: nat, start: nat, i: nat)
    requires Inv(s, first, start)
    ensures i < |s.serverCq| ==> s.serverCq[i] == WriteOf(first, start, Oldest(s) + i).imm
    ensures i < |s.writeWire| ==> s.writeWire[i] == WriteOf(first, start, Oldest(s) + |s.serverCq| + i)
  {
    if i < |s.serverCq| {
      assert s.serverCq[i] == Writes(first, start)(Oldest(s) + i).imm;
    }
    if i < |s.writeWire| {
      assert s.writeWire[i] == Writes(first, start)(Oldest(s) + |s.serverCq| + i);
    }
  }

  /** The server parses from a completion what the client packed for that write. */
  ghost predicate ParsesAs(imm: nat, first: nat, start: nat, m: nat) {
    && Word(imm)
    && BufferField(SwapBytes(imm)) == m % IN_FLIGHT
    && WindowField(SwapBytes(imm)) == WindowOf(first, start, m)
    && SizeField(SwapBytes(imm)) == BUFFER_SIZE
  }

  lemma Parses(first: nat, start: nat, m: nat)
    ensures ParsesAs(WriteOf(first, start, m).imm, first, start, m)
  {
    WriteFields(first, start, m);
  }

  lemma QueueParses(s: State, first: nat, start: nat, i: nat)
    requires Inv(s, first, start) && i < |s.serverCq|
    ensures ParsesAs(s.serverCq[i], first, start, Oldest(s) + i)
  {
    WriteAt(s, first, start, i);
    Parses(first, start, Oldest(s) + i);
  }

  lemma WireParses(s: State, first: nat, start: nat, i: nat)
    requires Inv(s, first, start) && i < |s.writeWire|
    ensures ParsesAs(s.writeWire[i].imm, first, start, Oldest(s) + |s.serverCq| + i)
  {
    WriteAt(s, first, start, i);
    Parses(first, start, Oldest(s) + |s.serverCq| + i);
  }

  lemma WordsOnly(s: State, first: nat, start: nat)
    requires Inv(s, first, start)
    ensures forall i | 0 <= i < |s.serverCq| :: Word(s.serverCq[i])
    ensures forall i | 0 <= i < |s.writeWire| :: Word(s.writeWire[i].imm)
  {
    forall i: nat | i < |s.serverCq| ensures Word(s.serverCq[i]) {
      QueueParses(s, first, start, i);
    }
    forall i: nat | i < |s.writeWire| ensures Word(s.writeWire[i].imm) {
      WireParses(s, first, start, i);
    }
  }

  /** Tokens to process, acks in flight, open batch and writes in flight concatenate to a rotation of 0..127. */
  lemma TokensRotate(s: State, first: nat, start: nat)
    requires Inv(s, first, start)
    ensures (forall i | 0 <= i < |s.serverCq| :: Word(s.serverCq[i])) && (forall i | 0 <= i < |s.writeWire| :: Word(s.writeWire[i].imm))
    ensures Acked(s) + QueuedIds(s.serverCq) + WireIds(s.writeWire) == Cycle(s.sent, IN_FLIGHT)
  {
    WordsOnly(s, first, start);
    QueuedIdsAt(s, first, start);
    WireIdsAt(s, first, start);
    ThreeParts(Acked(s), QueuedIds(s.serverCq), WireIds(s.writeWire), s.sent);
  }

  lemma QueuedIdsAt(s: State, first: nat, start: nat)
    requires Inv(s, first, start) && forall i | 0 <= i < |s.serverCq| :: Word(s.serverCq[i])
    ensures |QueuedIds(s.serverCq)| == |s.serverCq|
    ensures forall i | 0 <= i < |s.serverCq| :: QueuedIds(s.serverCq)[i] == (Oldest(s) + i) % IN_FLIGHT
  {
    forall i: nat | i < |s.serverCq| ensures QueuedIds(s.serverCq)[i] == (Oldest(s) + i) % IN_FLIGHT {
      QueueParses(s, first, start, i);
    }
  }

  lemma WireIdsAt(s: State, first: nat, start: nat)
    requires Inv(s, first, start) && forall i | 0 <= i < |s.writeWire| :: Word(s.writeWire[i].imm)
    ensures |WireIds(s.writeWire)| == |s.writeWire|
    ensures forall i | 0 <= i < |s.writeWire| :: WireIds(s.writeWire)[i] == (Oldest(s) + |s.serverCq| + i) % IN_FLIGHT
  {
    forall i: nat | i < |s.writeWire| ensures WireIds(s.writeWire)[i] == (Oldest(s) + |s.serverCq| + i) % IN_FLIGHT {
      WireParses(s, first, start, i);
    }
  }

  lemma ThreeParts(a: seq<nat>, b: seq<nat>, c: seq<nat>, lo: nat)
    requires a == Cycle(lo, |a|)
    requires forall i | 0 <= i < |b| :: b[i] == (lo + |a| + i) % IN_FLIGHT
    requires forall i | 0 <= i < |c| :: c[i] == (lo + |a| + |b| + i) % IN_FLIGHT
    ensures a + b + c == Cycle(lo, |a| + |b| + |c|)
  {
  }

  /** Where the server finds the chunk of a completion. */
  function ChunkOf(imm: nat): nat
    requires Word(imm)
  {
    Offset(BufferField(SwapBytes(imm)), WindowField(SwapBytes(imm)))
  }

  /** Where the `i`-th outstanding write is: as the server reads it from a completion, or as the client posted it. */
  function Region(s: State, i: nat): nat
    requires i < Outstanding(s) && forall k | 0 <= k < |s.serverCq| :: Word(s.serverCq[k])
  {
    if i < |s.serverCq| then ChunkOf(s.serverCq[i]) else s.writeWire[i - |s.serverCq|].base
  }

  lemma ChunkIs(first: nat, start: nat, m: nat)
    ensures Word(Writes(first, start)(m).imm) && ChunkOf(Writes(first, start)(m).imm) == Writes(first, start)(m).base
  {
    Parses(first, start, m);
  }

  lemma RegionIs(s: State, first: nat, start: nat, i: nat)
    requires Inv(s, first, start) && i < Outstanding(s)
    ensures forall k | 0 <= k < |s.serverCq| :: Word(s.serverCq[k])
    ensures Region(s, i) == Writes(first, start)(Oldest(s) + i).base
  {
    WordsOnly(s, first, start);
    ChunkIs(first, start, Oldest(s) + i);
    assert i >= |s.serverCq| ==> Oldest(s) + |s.serverCq| + (i - |s.serverCq|) == Oldest(s) + i;
  }

  /** The regions of any two outstanding writes do not overlap. */
  lemma OutstandingDisjoint(s: State, first: nat, start: nat, i: nat, j: nat)
    requires Inv(s, first, start) && i < j < Outstanding(s)
    ensures forall k | 0 <= k < |s.serverCq| :: Word(s.serverCq[k])
    ensures Region(s, i) + BUFFER_SIZE <= Region(s, j) || Region(s, j) + BUFFER_SIZE <= Region(s, i)
  {
    RegionIs(s, first, start, i);
    RegionIs(s, first, start, j);
    WritesSpaced(first, start);
    SpacedAt(Writes(first, start), Oldest(s) + i, Oldest(s) + j);
  }

  lemma SpacedAt(write: nat -> Write, m: nat, m': nat)
    requires Spaced(write) && m < m' < m + IN_FLIGHT
    ensures write(m).base + BUFFER_SIZE <= write(m').base || write(m').base + BUFFER_SIZE <= write(m).base
  {
    assert Apart(write(m), write(m'));
  }

  /** All outstanding writes have regions of their own, and the next slot to be opened is in no ack. */
  ghost predicate NothingReused(s: State)
    requires forall k | 0 <= k < |s.serverCq| :: Word(s.serverCq[k])
  {
    && (forall i: nat, j: nat | i < j < Outstanding(s) ::
          Region(s, i) + BUFFER_SIZE <= Region(s, j) || Region(s, j) + BUFFER_SIZE <= Region(s, i))
    && (s.serverCq != [] ==> BufferField(SwapBytes(s.serverCq[0])) !in Acked(s))
  }

  lemma InvNothingReused(s: State, first: nat, start: nat)
    requires Inv(s, first, start)
    ensures (forall k | 0 <= k < |s.serverCq| :: Word(s.serverCq[k])) && NothingReused(s)
  {
    WordsOnly(s, first, start);
    forall i: nat, j: nat | i < j < Outstanding(s)
      ensures Region(s, i) + BUFFER_SIZE <= Region(s, j) || Region(s, j) + BUFFER_SIZE <= Region(s, i)
    {
      OutstandingDisjoint(s, first, start, i, j);
    }
    if s.serverCq != [] {
      SlotNotReusedEarly(s, first, start);
    }
  }

  /** The slot the next write would open carries an id whose ack the client has processed at least that far. */
  lemma SlotNotReusedEarly(s: State, first: nat, start: nat)
    requires Inv(s, first, start) && s.serverCq != []
    ensures Word(s.serverCq[0]) && BufferField(SwapBytes(s.serverCq[0])) !in Acked(s)
  {
    TakenWrite(s, first, start);
    var id := Oldest(s) % IN_FLIGHT;
    if p: nat :| p < |Acked(s)| && Acked(s)[p] == id {
      AckedOnce(s, p, |Acked(s)|);
      assert false;
    }
  }

  lemma {:induction false} CatLength(msgs: seq<Msg>, slots: seq<nat>)
    requires forall i | 0 <= i < |slots| :: Tokens(msgs, slots[i]) != []
    ensures |Cat(msgs, slots)| >= |slots|
  {
    if slots != [] {
      CatLength(msgs, slots[..|slots| - 1]);
      assert Tokens(msgs, slots[|slots| - 1]) != [];
    }
  }

  /**
   An ack in flight finds no posted receive exactly while the client works through an ack and 127 more are
   waiting; it then holds every token, has used up those of the ack at hand, and is about to post its slot again.
   */
  lemma AckWaitsOnlyBeforeRepost(s: State, first: nat, start: nat)
    requires Inv(s, first, start) && s.ackWire != []
    ensures s.recvQueue == [] <==> s.current.Some? && |s.clientCq| == IN_FLIGHT - 1
    ensures s.recvQueue == [] ==> Remaining(s) == [] && |s.ackWire| == 1 && Outstanding(s) == 0 && s.echo == None
    ensures s.recvQueue == [] ==> Enabled(s, EndAck)
  {
    CatLength(s.clientMsg, s.clientCq);
    forall i | 0 <= i < |s.ackWire| ensures Tokens(s.serverMsg, s.ackWire[i]) != [] {
      assert InOwnSlot(s, s.ackWire[i]);
    }
    CatLength(s.serverMsg, s.ackWire);
  }

  lemma SendEnabled(s: State, first: nat, start: nat)
    requires Inv(s, first, start) && s.current.Some?
    ensures Remaining(s) != [] ==> Enabled(s, SendToken)
    ensures Remaining(s) == [] ==> Enabled(s, EndAck)
  {
    if Remaining(s) != [] {
      assert Acked(s)[0] == Remaining(s)[0];
    }
  }

  lemma TakeEnabled(s: State, first: nat, start: nat)
    requires Inv(s, first, start) && s.serverCq != []
    ensures Enabled(s, TakeWrite)
  {
    TakenWrite(s, first, start);
  }

  /** Some step is always possible: the tokens never stop circulating. */
  lemma NeverStuck(s: State, first: nat, start: nat)
    requires Inv(s, first, start)
    ensures exists act :: Enabled(s, act)
  {
    if s.serverCq != [] {
      TakeEnabled(s, first, start);
    } else if s.writeWire != [] {
      WriteAt(s, first, start, 0);
      assert Enabled(s, WriteArrives);
    } else if s.echo.Some? {
      assert Enabled(s, Flush);
    } else if s.current.Some? {
      SendEnabled(s, first, start);
    } else if s.clientCq != [] {
      assert Enabled(s, StartAck);
    } else {
      assert |Acked(s)| == IN_FLIGHT && Remaining(s) == [] && OpenBatch(s) == [];
      assert s.ackWire != [];
      AckInRange(s);
    }
  }

  lemma AckInRange(s: State)
    requires SlotsInv(s) && BatchInv(s) && s.ackWire != [] && s.recvQueue != []
    ensures Enabled(s, AckArrives)
  {
    var r := s.recvQueue[0];
    assert r in multiset(s.recvQueue);
    assert SlotUses(s, r) > 0;
    assert InOwnSlot(s, s.ackWire[0]);
  }

  /** What the design promises of every state: no id is lost or doubled, and both ends agree on every write. */
  ghost predicate Circulates(s: State, first: nat, start: nat) {
    && !s.failed && Outstanding(s) <= IN_FLIGHT
    && (forall i | 0 <= i < |s.serverCq| :: Word(s.serverCq[i])) && (forall i | 0 <= i < |s.writeWire| :: Word(s.writeWire[i].imm))
    && Acked(s) + QueuedIds(s.serverCq) + WireIds(s.writeWire) == Cycle(s.sent, IN_FLIGHT)
    && s.window == (start + s.sent / IN_FLIGHT) % WINDOWS
    && (forall i: nat | i < |s.serverCq| :: ParsesAs(s.serverCq[i], first, start, Oldest(s) + i))
    && |s.writeWire| <= s.serverRecvs && NothingReused(s)
  }

  lemma InvCirculates(s: State, first: nat, start: nat)
    requires Inv(s, first, start)
    ensures Circulates(s, first, start)
  {
    TokensRotate(s, first, start);
    InvNothingReused(s, first, start);
    forall i: nat | i < |s.serverCq| ensures ParsesAs(s.serverCq[i], first, start, Oldest(s) + i) {
      QueueParses(s, first, start, i);
    }
  }

  lemma EveryRunCirculates(s: State, first: nat, start: nat, acts: seq<Act>)
    requires Initial(s, first, start) && IsRun(s, acts)
    ensures Circulates(After(s, acts), first, start)
    ensures exists act :: Enabled(After(s, acts), act)
  {
    InvInitial(s, first, start);
    RunInv(s, acts, first, start);
    InvCirculates(After(s, acts), first, start);
    NeverStuck(After(s, acts), first, start);
  }

  /** A buffer in which the first `n` writes are marked. */
  function MarksOf(write: nat -> Write, n: nat): map<nat, nat> {
    if n == 0 then map[] else Mark(MarksOf(write, n - 1), write(n - 1).base, BUFFER_SIZE, n - 1)
  }

  /**
   A start as the client leaves it: the receive for slot 0 took the message with the memory information and
   was posted again at the end, so the slots are posted in the order 1..127, 0.
   */
  function Init(first: nat, start: nat): State {
    State(start, None, MarksOf(Writes(first, start), IN_FLIGHT), seq(IN_FLIGHT, _ => Msg([], 0)), Cycle(1, IN_FLIGHT), [],
          [], seq(IN_FLIGHT, i requires 0 <= i < IN_FLIGHT => Writes(first, start)(i)),
          map[], [], IN_FLIGHT, seq(IN_FLIGHT, _ => Msg([], 0)), None, false, 0)
  }

  lemma {:induction false} MarksOfMarked(write: nat -> Write, n: nat, m: nat)
    requires m < n <= IN_FLIGHT && Spaced(write)
    ensures MarkedFor(MarksOf(write, n), write, m)
  {
    if m < n - 1 {
      MarksOfMarked(write, n - 1, m);
      MarkKeepsOthers(MarksOf(write, n - 1), write, n - 1, m, n - 1, n - 1);
    } else {
      MarkIsMarked(MarksOf(write, n - 1), write(m).base, m);
    }
  }

  lemma MarkIsMarked(buf: map<nat, nat>, base: nat, id: nat)
    ensures Marked(Mark(buf, base, BUFFER_SIZE, id), base, BUFFER_SIZE, id)
  {
  }

  lemma SlotsRotated()
    ensures multiset(Cycle(1, IN_FLIGHT)) == multiset(Cycle(0, IN_FLIGHT))
  {
    assert Cycle(0, IN_FLIGHT) == [0] + Cycle(1, IN_FLIGHT - 1);
    assert Cycle(1, IN_FLIGHT) == Cycle(1, IN_FLIGHT - 1) + [0];
  }

  /** There is such a start for every pair of windows. */
  lemma InitialExists(first: nat, start: nat)
    requires start < WINDOWS
    ensures Initial(Init(first, start), first, start)
  {
    SlotsRotated();
    InitMarks(Writes(first, start), first, start);
  }

  lemma InitMarks(write: nat -> Write, first: nat, start: nat)
    requires write == Writes(first, start)
    ensures forall m: nat | m < IN_FLIGHT :: MarkedFor(MarksOf(write, IN_FLIGHT), write, m)
  {
    WritesSpaced(first, start);
    forall m: nat | m < IN_FLIGHT ensures MarkedFor(MarksOf(write, IN_FLIGHT), write, m) {
      MarksOfMarked(write, IN_FLIGHT, m);
    }
  }
}
