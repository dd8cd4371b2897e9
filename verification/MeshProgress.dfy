/** The barrier never gets stuck: every run of the full mesh can go on to the end of its round, and of any later one. */
module MeshProgress {
  import opened MeshBarrier

  ghost predicate Leads(w: World, acts: seq<Act>, w': World)
    decreases |acts|
  {
    if acts == [] then w' == w else Enabled(w, acts[0]) && Leads(Step(w, acts[0]), acts[1..], w')
  }

  lemma {:induction false} LeadsCat(w: World, a: seq<Act>, v: World, b: seq<Act>, w': World)
    requires Leads(w, a, v) && Leads(v, b, w')
    ensures Leads(w, a + b, w')
    decreases |a|
  {
    if a == [] {
      assert a + b == b;
    } else {
      assert (a + b)[1..] == a[1..] + b;
      LeadsCat(Step(w, a[0]), a[1..], v, b, w');
    }
  }

  /** How many steps a session's go-ahead is away from being a block in q2. */
  function Dist(s: Session): nat {
    if s.toClient != [] then (if s.toClient[0] == READY then 8 else 3)
    else if s.toServer != [] then (if s.toServer[0] == HELLO then 7 else 2)
    else
      match s.poll
      case Got(imm) => if imm == HELLO then 6 else 1
      case NeedGo => 5
      case Sending => 4
      case Waiting => 0
  }

  /** The step that brings it nearer. */
  function Move(s: Session, i: nat): Act {
    if s.toClient != [] then ClientReceives(i)
    else if s.toServer != [] then TakeCompletion(i)
    else
      match s.poll
      case Got(_) => HandleImm(i)
      case NeedGo => PopGo(i)
      case _ => SendGo(i)
  }

  /** The scan would find nothing: the block of this round is neither collected nor in q2. */
  predicate Awaited(w: World, i: nat) {
    i < w.members && i < |w.sessions| && i < |w.sync.bitmap| && !w.sync.bitmap[i] && w.sessions[i].q2 == []
  }

  function Weight(w: World, n: nat): nat
    requires n <= |w.sessions|
  {
    if n == 0 then 0 else Weight(w, n - 1) + (if Awaited(w, n - 1) then Dist(w.sessions[n - 1]) else 0)
  }

  lemma {:induction false} WeightSame(w: World, w': World, n: nat)
    requires n <= |w.sessions| == |w'.sessions|
    requires forall i: nat | i < n :: (Awaited(w', i) <==> Awaited(w, i)) && w'.sessions[i] == w.sessions[i]
    ensures Weight(w', n) == Weight(w, n)
  {
    if n > 0 {
      WeightSame(w, w', n - 1);
    }
  }

  lemma {:induction false} WeightLess(w: World, w': World, n: nat, i: nat)
    requires i < n <= |w.sessions| == |w'.sessions|
    requires forall j: nat | j < n && j != i :: (Awaited(w', j) <==> Awaited(w, j)) && w'.sessions[j] == w.sessions[j]
    requires Awaited(w, i) && (if Awaited(w', i) then Dist(w'.sessions[i]) < Dist(w.sessions[i]) else 0 < Dist(w.sessions[i]))
    ensures Weight(w', n) < Weight(w, n)
  {
    if i == n - 1 {
      WeightSame(w, w', n - 1);
    } else {
      WeightLess(w, w', n - 1, i);
    }
  }

  lemma {:induction false} WeightZero(w: World, n: nat)
    requires n <= |w.sessions| && forall i: nat | i < n :: !Awaited(w, i)
    ensures Weight(w, n) == 0
  {
    if n > 0 {
      WeightZero(w, n - 1);
    }
  }

  /** An awaited session is not stuck: its one token is somewhere, and its holder can pass it on. */
  lemma TokenMoves(w: World, i: nat)
    requires Inv(w) && (w.phase.Scan? || w.phase.Check?) && Awaited(w, i)
    ensures var act := Move(w.sessions[i], i);
            && Enabled(w, act) && !act.SyncStep? && !act.Join? && act.i == i
            && (Step(w, act).sessions[i].q2 != [] || Dist(Step(w, act).sessions[i]) < Dist(w.sessions[i]))
    ensures 0 < Dist(w.sessions[i])
  {
    var s := w.sessions[i];
    assert AtRound(w, i);
    assert SessionInv(s);
    assert s.toClient != [] ==> s.toClient == [s.toClient[0]];
    assert s.toServer != [] ==> s.toServer == [s.toServer[0]];
  }

  function Left(w: World, k: nat): nat {
    if k < w.members then w.members - k else 0
  }

  ghost predicate ClearFrom(w: World, k: nat) {
    exists j :: k <= j < w.members && j < |w.sync.bitmap| && !w.sync.bitmap[j]
  }

  /** How far a scan is from the next bit it can set. */
  ghost function ScanLeft(w: World): nat {
    match w.phase
    case Scan(k) => Left(w, k) + (if ClearFrom(w, k) then 0 else w.members + 3)
    case _ => w.members + 2
  }

  function ClearBits(w: World): int
    requires w.members <= |w.sync.bitmap|
  {
    w.members - BitsSet(w.sync.bitmap, w.members)
  }

  function Rank(phase: Phase): nat {
    match phase
    case Start(_) => 4
    case Scan(_) => 3
    case Check => 3
    case Release(_) => 2
    case ResetCount => 1
    case ResetBitmap => 0
  }

  /** What is left to do in the phase: sessions to be given a go-ahead, or tokens to come in. */
  function Load(w: World): int
    requires w.members <= |w.sessions|
  {
    match w.phase
    case Start(k) => |w.sessions| - k
    case Release(k) => |w.sessions| - k
    case _ => Weight(w, w.members)
  }

  /** The synchronization thread's step when no block is awaited. */
  lemma ScanAdvances(w: World)
    requires Inv(w) && (w.phase.Scan? || w.phase.Check?) && forall i: nat | i < w.members :: !Awaited(w, i)
    ensures Enabled(w, SyncStep) && Inv(SyncStepped(w))
    ensures var w' := SyncStepped(w);
            && w'.round == w.round && w'.members == w.members && |w'.sessions| == |w.sessions|
            && (w'.phase.Release? || ((w'.phase.Scan? || w'.phase.Check?) && Load(w') == Load(w) == 0 && ClearBits(w') >= 0
                && (ClearBits(w') < ClearBits(w) || (ClearBits(w') == ClearBits(w) && ScanLeft(w') < ScanLeft(w)))))
  {
    var w' := SyncStepped(w);
    InvStepSync(w);
    WeightZero(w, w.members);
    BitsAll(w.sync.bitmap, w.members);
    BitsAll(w'.sync.bitmap, w.members);
    if !w'.phase.Release? {
      StillNone(w);
      if w.phase.Scan? && w.phase.next < w.members {
        ScanOneIndex(w);
      } else {
        ScanTurns(w);
      }
    }
  }

  lemma StillNone(w: World)
    requires Inv(w) && Enabled(w, SyncStep) && !SyncStepped(w).phase.Release?
    requires (w.phase.Scan? || w.phase.Check?) && forall i: nat | i < w.members :: !Awaited(w, i)
    ensures SyncStepped(w).members == w.members && |SyncStepped(w).sessions| == |w.sessions|
    ensures Weight(SyncStepped(w), w.members) == 0
  {
    forall i: nat | i < w.members ensures !Awaited(SyncStepped(w), i) {
      assert !Awaited(w, i);
    }
    WeightZero(SyncStepped(w), w.members);
  }

  lemma ScanTurns(w: World)
    requires Inv(w) && Enabled(w, SyncStep) && !SyncStepped(w).phase.Release?
    requires w.phase.Check? || (w.phase.Scan? && w.phase.next >= w.members)
    ensures SyncStepped(w).sync == w.sync && SyncStepped(w).members == w.members && ScanLeft(SyncStepped(w)) < ScanLeft(w)
  {
    if w.phase.Check? {
      BitsAll(w.sync.bitmap, w.members);
      assert ClearFrom(SyncStepped(w), 0);
    } else {
      assert !ClearFrom(w, w.phase.next);
    }
  }

  lemma ScanOneIndex(w: World)
    requires Inv(w) && w.phase.Scan? && w.phase.next < w.members && !Awaited(w, w.phase.next)
    ensures var w' := SyncStepped(w);
            w'.members == w.members && w'.phase == Scan(w.phase.next + 1) && w.members <= |w'.sync.bitmap|
            && (ClearBits(w') < ClearBits(w) || (ClearBits(w') == ClearBits(w) && ScanLeft(w') < ScanLeft(w)))
  {
    var k := w.phase.next;
    if !w.sync.bitmap[k] {
      BitsSetOne(w.sync.bitmap, w.members, k);
    } else if ClearFrom(w, k) {
      var j :| k <= j < w.members && j < |w.sync.bitmap| && !w.sync.bitmap[j];
      assert k + 1 <= j;
      assert ClearFrom(SyncStepped(w), k + 1);
    } else {
      assert !ClearFrom(SyncStepped(w), k + 1);
    }
  }

  lemma AwaitedStep(w: World, i: nat) returns (act: Act)
    requires Inv(w) && (w.phase.Scan? || w.phase.Check?) && Awaited(w, i)
    ensures Enabled(w, act) && Inv(Step(w, act))
    ensures var w' := Step(w, act);
            && w'.round == w.round && w'.members == w.members && w'.phase == w.phase && |w'.sessions| == |w.sessions|
            && Load(w') < Load(w)
  {
    act := Move(w.sessions[i], i);
    TokenMoves(w, i);
    InvStep(w, act);
    var w' := Step(w, act);
    assert forall j: nat | j < |w.sessions| && j != i :: w'.sessions[j] == w.sessions[j];
    WeightLess(w, w', w.members, i);
  }

  lemma GiveStep(w: World)
    requires Inv(w) && !w.phase.Scan? && !w.phase.Check?
    ensures Enabled(w, SyncStep) && Inv(SyncStepped(w))
    ensures var w' := SyncStepped(w);
            && w'.members == w.members && |w'.sessions| == |w.sessions|
            && if w.phase.ResetBitmap? then w'.round == w.round + 1 && w'.phase == Scan(0) && w'.sync.bitmap == NoBits(BITMAP_SIZE)
               else w'.round == w.round && (Rank(w'.phase) < Rank(w.phase)
                    || (Rank(w'.phase) == Rank(w.phase) && 0 <= Load(w') < Load(w) && !w'.phase.Scan? && !w'.phase.Check?))
  {
    InvStepSync(w);
  }

  /** From every state the round can be brought to its end, without a further session joining. */
  lemma {:induction false} RoundEnds(w: World) returns (acts: seq<Act>, w': World)
    requires Inv(w)
    ensures Leads(w, acts, w') && Inv(w') && w'.members == w.members
    ensures w'.round == w.round + 1 && w'.phase == Scan(0) && w'.sync.bitmap == NoBits(BITMAP_SIZE)
    decreases Rank(w.phase), Load(w), if w.phase.Scan? || w.phase.Check? then ClearBits(w) else 0, ScanLeft(w)
  {
    var act := SyncStep;
    if !w.phase.Scan? && !w.phase.Check? {
      GiveStep(w);
    } else if i: nat :| i < w.members && Awaited(w, i) {
      act := AwaitedStep(w, i);
    } else {
      ScanAdvances(w);
    }
    var v := Step(w, act);
    if w.phase.ResetBitmap? {
      acts, w' := [act], v;
      assert [act][1..] == [];
    } else {
      var rest;
      rest, w' := RoundEnds(v);
      acts := [act] + rest;
      assert acts[1..] == rest;
    }
  }

  /**
   Every run can go on for any number of rounds, in each of which every session connected in time is
   collected once and given one go-ahead.
   */
  lemma {:induction false} EveryRunGoesOn(n: nat, trace: seq<World>, acts: seq<Act>, rounds: nat) returns (more: seq<Act>, w: World)
    requires n <= BITMAP_SIZE && IsRun(n, trace, acts) && rounds > 0
    ensures Leads(trace[|acts|], more, w) && n <= |w.sessions| && w.phase == Scan(0)
    ensures w.round == trace[|acts|].round + rounds && w.sync.epoch == 1 + w.round % 3997
    ensures forall i: nat | i < n :: w.sessions[i].collected == w.round && w.sessions[i].goAheads == w.round + 1
  {
    RunInv(n, trace, acts, |acts|);
    more, w := ManyRounds(trace[|acts|], rounds);
    forall i: nat | i < n ensures w.sessions[i].collected == w.round && w.sessions[i].goAheads == w.round + 1 {
      assert AtRound(w, i);
    }
  }

  lemma {:induction false} ManyRounds(v: World, rounds: nat) returns (more: seq<Act>, w: World)
    requires Inv(v) && rounds > 0
    ensures Leads(v, more, w) && Inv(w) && w.members == v.members && w.phase == Scan(0) && w.round == v.round + rounds
    ensures w.sync.bitmap == NoBits(BITMAP_SIZE)
    decreases rounds
  {
    more, w := RoundEnds(v);
    if rounds > 1 {
      var rest, w1 := ManyRounds(w, rounds - 1);
      LeadsCat(v, more, w, rest, w1);
      more, w := more + rest, w1;
    }
  }
}
