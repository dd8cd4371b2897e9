/** The tokens keep moving: how acks are filled, and how long a run can go without a token being used again. */
module SlidingProgress {
  import opened ImmData
  import opened SlidingWindow
  import opened SlidingWindowProof
  import opened SlidingWindowRuns
  import opened Wrappers

  /** Without an open batch, a write opens one in the slot of its own id and with its own window. */
  lemma BatchOpens(s: State, first: nat, start: nat)
    requires Inv(s, first, start) && s.serverCq != [] && s.echo.None?
    ensures Enabled(s, TakeWrite)
    ensures var t, m := WriteTaken(s), Oldest(s);
            && t.echo == Some(m % 128) && m % 128 < |t.serverMsg| && t.ackWire == s.ackWire
            && t.serverMsg[m % 128] == Msg([m % 128], WindowOf(first, start, m))
  {
    TakeEnabled(s, first, start);
    QueueParses(s, first, start, 0);
  }

  /** A write is added to the open batch, which is sent with its 48th token. */
  lemma BatchFills(s: State, first: nat, start: nat)
    requires Inv(s, first, start) && s.serverCq != [] && s.echo.Some?
    ensures Enabled(s, TakeWrite) && s.echo.value < |s.serverMsg| == |WriteTaken(s).serverMsg|
    ensures var t, e, open := WriteTaken(s), s.echo.value, s.serverMsg[s.echo.value];
            && 1 <= |open.tokens| <= 47
            && t.serverMsg[e] == Msg(open.tokens + [Oldest(s) % 128], open.window)
            && if |open.tokens| == 47 then t.echo == None && t.ackWire == s.ackWire + [e]
               else t.echo == s.echo && t.ackWire == s.ackWire
  {
    TakeEnabled(s, first, start);
    QueueParses(s, first, start, 0);
  }

  /** Every step but the reuse of a token brings the tokens nearer to the client. */
  function ToClient(s: State): nat {
    6 * |s.writeWire| + 5 * |s.serverCq| + 4 * Bit(s.echo.Some?) + 3 * |s.ackWire| + 2 * |s.clientCq| + Bit(s.current.Some?)
  }

  lemma StepsTowards(s: State, act: Act, first: nat, start: nat)
    requires Inv(s, first, start) && Enabled(s, act) && act != SendToken
    ensures ToClient(Step(s, act)) < ToClient(s)
  {
  }

  lemma ToClientBound(s: State, first: nat, start: nat)
    requires Inv(s, first, start)
    ensures ToClient(s) <= 6 * 128 + 1
  {
    CatLength(s.clientMsg, s.clientCq);
    forall i | 0 <= i < |s.ackWire| ensures Tokens(s.serverMsg, s.ackWire[i]) != [] {
      assert InOwnSlot(s, s.ackWire[i]);
    }
    CatLength(s.serverMsg, s.ackWire);
    assert s.echo.Some? ==> InOwnSlot(s, s.echo.value);
  }

  function Reuses(acts: seq<Act>): nat {
    if acts == [] then 0 else Bit(acts[0] == SendToken) + Reuses(acts[1..])
  }

  lemma OneStep(s: State, act: Act, first: nat, start: nat)
    requires Inv(s, first, start) && Enabled(s, act)
    ensures Inv(Step(s, act), first, start) && Step(s, act).sent == s.sent + Bit(act == SendToken)
    ensures act != SendToken ==> ToClient(Step(s, act)) < ToClient(s)
  {
    InvStep(s, act, first, start);
    if act != SendToken {
      StepsTowards(s, act, first, start);
    }
  }

  lemma {:induction false} RunShortens(s: State, acts: seq<Act>, first: nat, start: nat)
    requires Inv(s, first, start) && IsRun(s, acts)
    ensures After(s, acts).sent == s.sent + Reuses(acts)
    ensures Reuses(acts) == 0 ==> |acts| + ToClient(After(s, acts)) <= ToClient(s)
    decreases |acts|
  {
    if acts != [] {
      var t := Step(s, acts[0]);
      OneStep(s, acts[0], first, start);
      RunShortens(t, acts[1..], first, start);
      assert After(s, acts) == After(t, acts[1..]);
    }
  }

  /**
   However the steps of the two ends and of the channels interleave, of any 770 steps in a row at least one
   reuses a token. As some step is always possible, the client writes on for ever.
   */
  lemma TokensKeepMoving(s: State, acts: seq<Act>, more: seq<Act>, first: nat, start: nat)
    requires Initial(s, first, start) && IsRun(s, acts) && IsRun(After(s, acts), more) && |more| >= 770
    ensures After(After(s, acts), more).sent > After(s, acts).sent
    ensures exists act :: Enabled(After(After(s, acts), more), act)
  {
    InvInitial(s, first, start);
    RunInv(s, acts, first, start);
    var t := After(s, acts);
    RunShortens(t, more, first, start);
    ToClientBound(t, first, start);
    RunInv(t, more, first, start);
    NeverStuck(After(t, more), first, start);
  }

  /** Writes, acks, completions and posted receives are all taken in the order in which they came. */
  lemma ChannelsInOrder(s: State, act: Act)
    requires Enabled(s, act)
    ensures var t := Step(s, act);
            && Fifo(s.writeWire, t.writeWire) && Fifo(s.serverCq, t.serverCq) && Fifo(s.ackWire, t.ackWire)
            && Fifo(s.recvQueue, t.recvQueue) && Fifo(s.clientCq, t.clientCq)
  {
  }
}
