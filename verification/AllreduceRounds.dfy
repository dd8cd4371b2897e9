/**
 An allreduce server and its clients: one session per client, each a pair of queue pairs joined by an
 in-order reliable channel, and the server's loop that collects every group of sessions and then releases them.

 A message that arrives where no receive is posted sets the session's `rnr` flag ("receiver not ready").
 */
module AllreduceRounds {

  datatype Completion = SendDone | RecvDone | WriteDone | RecvImm

  /**
   One end of a session. `stage` counts the steps of the start-up: write the first sync byte, read the
   peer's, post a receive, write the second byte, read the peer's; `unsignaled` counts posted sends
   whose local completion is still to come.
   */
  datatype End = End(stage: nat, recvs: nat, cq: seq<Completion>, unsignaled: nat)

  datatype Session = Session(client: End, server: End, writes: nat, ctrls: nat,
                             wrote: nat, collected: nat, released: nat, rnr: bool)

  datatype Group = Group(inflight: seq<nat>, ready: seq<nat>)

  datatype Loop =
    | Setup(next: nat)
    | Reduce(group: nat)
    | Broadcast(group: nat)

  /** `home` gives the group each session was found to belong to. */
  datatype World = World(sessions: seq<Session>, home: seq<nat>, groups: seq<Group>, loop: Loop, round: nat)

  datatype Act =
    | ClientStart(i: nat)
    | ClientPoll(i: nat)
    | ClientSignal(i: nat)
    | ServerSignal(i: nat)
    | WriteArrives(i: nat)
    | CtrlArrives(i: nat)
    | ServerStart
    | ServerPoll
    | ReduceDone
    | ReleaseOne
    | BroadcastDone

  const SYNCED := 5
  const RUNNING := 6

  function Init(home: seq<nat>, groups: nat): World {
    var idle := End(0, 0, [], 0);
    World(seq(|home|, _ => Session(idle, idle, 0, 0, 0, 0, 0, false)), home,
          seq(groups, _ => Group([], [])), Setup(0), 0)
  }

  /** One step of the start-up; reading a sync byte waits until the peer has written it. */
  predicate CanStart(own: End, peer: End) {
    match own.stage
    case 1 => peer.stage >= 1
    case 4 => peer.stage >= 4
    case _ => own.stage < SYNCED
  }

  function Start(own: End): End {
    var next := own.(stage := own.stage + 1);
    if own.stage == 2 then next.(recvs := next.recvs + 1) else next
  }

  function PushData(s: Session): Session {
    s.(client := s.client.(unsignaled := s.client.unsignaled + 1), writes := s.writes + 1, wrote := s.wrote + 1)
  }

  function PushCtrl(s: Session): Session {
    s.(server := s.server.(unsignaled := s.server.unsignaled + 1), ctrls := s.ctrls + 1, released := s.released + 1)
  }

  function PostRecv(e: End): End {
    e.(recvs := e.recvs + 1)
  }

  /** The client's loop: any message received means post a receive and write the next block. */
  function ClientPolled(s: Session): Session
    requires s.client.cq != []
  {
    var s' := s.(client := s.client.(cq := s.client.cq[1..]));
    match s.client.cq[0]
    case RecvDone => PushData(s'.(client := PostRecv(s'.client)))
    case RecvImm => PushData(s'.(client := PostRecv(s'.client)))
    case SendDone => s'
    case WriteDone => s'
  }

  /** `peek_status` on the session at the front of the inflight queue, and what `do_reduce` makes of it. */
  function ServerPolled(s: Session): Session {
    if s.server.cq == [] then s
    else
      var s' := s.(server := s.server.(cq := s.server.cq[1..]));
      if s.server.cq[0].RecvImm? then s'.(server := PostRecv(s'.server), collected := s.collected + 1) else s'
  }

  function Arrive(to: End, c: Completion): End
    requires to.recvs > 0
  {
    to.(recvs := to.recvs - 1, cq := to.cq + [c])
  }

  function WriteArrived(s: Session): Session
    requires s.writes > 0
  {
    if s.server.recvs > 0 then s.(writes := s.writes - 1, server := Arrive(s.server, RecvImm)) else s.(rnr := true)
  }

  function CtrlArrived(s: Session): Session
    requires s.ctrls > 0
  {
    if s.client.recvs > 0 then s.(ctrls := s.ctrls - 1, client := Arrive(s.client, RecvDone)) else s.(rnr := true)
  }

  function Signaled(e: End, c: Completion): End
    requires e.unsignaled > 0
  {
    e.(cq := e.cq + [c], unsignaled := e.unsignaled - 1)
  }

  function ClientStarted(s: Session): Session {
    var s' := s.(client := Start(s.client));
    if s.client.stage == SYNCED then PushData(s') else s'
  }

  predicate Enabled(w: World, act: Act) {
    match act
    case ClientStart(i) =>
      i < |w.sessions| && (CanStart(w.sessions[i].client, w.sessions[i].server) || w.sessions[i].client.stage == SYNCED)
    case ClientPoll(i) =>
      i < |w.sessions| && w.sessions[i].client.stage == RUNNING && w.sessions[i].client.cq != []
    case ClientSignal(i) => i < |w.sessions| && w.sessions[i].client.unsignaled > 0
    case ServerSignal(i) => i < |w.sessions| && w.sessions[i].server.unsignaled > 0
    case WriteArrives(i) => i < |w.sessions| && w.sessions[i].writes > 0
    case CtrlArrives(i) => i < |w.sessions| && w.sessions[i].ctrls > 0
    case ServerStart =>
      w.loop.Setup? &&
      (w.loop.next < |w.sessions| ==>
         if w.sessions[w.loop.next].server.stage == SYNCED
         then w.loop.next < |w.home| && w.home[w.loop.next] < |w.groups|
         else CanStart(w.sessions[w.loop.next].server, w.sessions[w.loop.next].client))
    case ServerPoll =>
      && w.loop.Reduce? && w.loop.group < |w.groups| && w.groups[w.loop.group].inflight != []
      && w.groups[w.loop.group].inflight[0] < |w.sessions|
    case ReduceDone => w.loop.Reduce? && w.loop.group < |w.groups| && w.groups[w.loop.group].inflight == []
    case ReleaseOne =>
      && w.loop.Broadcast? && w.loop.group < |w.groups| && w.groups[w.loop.group].ready != []
      && w.groups[w.loop.group].ready[0] < |w.sessions|
    case BroadcastDone => w.loop.Broadcast? && w.loop.group < |w.groups| && w.groups[w.loop.group].ready == []
  }

  function With(w: World, i: nat, s: Session): World
    requires i < |w.sessions|
  {
    w.(sessions := w.sessions[i := s])
  }

  function Step(w: World, act: Act): World
    requires Enabled(w, act)
  {
    match act
    case ClientStart(i) => With(w, i, ClientStarted(w.sessions[i]))
    case ClientPoll(i) => With(w, i, ClientPolled(w.sessions[i]))
    case ClientSignal(i) =>
      var s := w.sessions[i];
      With(w, i, s.(client := Signaled(s.client, WriteDone)))
    case ServerSignal(i) =>
      var s := w.sessions[i];
      With(w, i, s.(server := Signaled(s.server, SendDone)))
    case WriteArrives(i) => With(w, i, WriteArrived(w.sessions[i]))
    case CtrlArrives(i) => With(w, i, CtrlArrived(w.sessions[i]))
    case ServerStart =>
      var i := w.loop.next;
      if i >= |w.sessions| then w.(loop := Reduce(0))
      else if w.sessions[i].server.stage == SYNCED then
        var g := w.home[i];
        w.(groups := w.groups[g := w.groups[g].(inflight := w.groups[g].inflight + [i])], loop := Setup(i + 1))
      else With(w, i, w.sessions[i].(server := Start(w.sessions[i].server)))
    case ServerPoll =>
      var g := w.loop.group;
      var i := w.groups[g].inflight[0];
      var s := w.sessions[i];
      var rest := w.groups[g].inflight[1..];
      var grp := if s.server.cq != [] && s.server.cq[0].RecvImm? then Group(rest, w.groups[g].ready + [i])
                 else Group(rest + [i], w.groups[g].ready);
      With(w, i, ServerPolled(s)).(groups := w.groups[g := grp])
    case ReduceDone =>
      w.(loop := if w.loop.group + 1 < |w.groups| then Reduce(w.loop.group + 1) else Broadcast(|w.groups| - 1))
    case ReleaseOne =>
      var g := w.loop.group;
      var i := w.groups[g].ready[0];
      With(w, i, PushCtrl(w.sessions[i])).(groups := w.groups[g := Group(w.groups[g].inflight + [i], w.groups[g].ready[1..])])
    case BroadcastDone =>
      if w.loop.group > 0 then w.(loop := Broadcast(w.loop.group - 1)) else w.(loop := Reduce(0), round := w.round + 1)
  }

  function Count(cq: seq<Completion>, c: Completion): nat {
    multiset(cq)[c]
  }

  function Bit(b: bool): nat {
    if b then 1 else 0
  }

  /**
   One session: exactly one token once the client runs, one posted or consumed receive at each end once
   it has started, and the book-keeping of blocks written, collected and released.
   */
  ghost predicate SessionInv(s: Session) {
    && !s.rnr
    && s.client.stage <= RUNNING && s.server.stage <= SYNCED
    && (s.client.stage >= SYNCED ==> s.server.stage >= 4)
    && s.server.recvs + Count(s.server.cq, RecvImm) == Bit(s.server.stage >= 3)
    && s.client.recvs + Count(s.client.cq, RecvDone) == Bit(s.client.stage >= 3)
    && Count(s.client.cq, RecvImm) == 0
    && s.released <= s.collected
    && s.writes + Count(s.server.cq, RecvImm) + (s.collected - s.released) + s.ctrls + Count(s.client.cq, RecvDone)
       == Bit(s.client.stage == RUNNING)
    && s.wrote == s.collected + s.writes + Count(s.server.cq, RecvImm)
  }

  lemma CountStep(cq: seq<Completion>, c: Completion)
    ensures forall d :: Count(cq + [d], c) == Count(cq, c) + Bit(c == d)
    ensures cq != [] ==> Count(cq, c) == Count(cq[1..], c) + Bit(cq[0] == c)
  {
    if cq != [] {
      assert cq == [cq[0]] + cq[1..];
    }
  }

  lemma SessionInvPolls(s: Session)
    requires SessionInv(s)
    ensures s.client.stage == RUNNING && s.client.cq != [] ==> SessionInv(ClientPolled(s))
    ensures SessionInv(ServerPolled(s))
  {
    CountStep(s.client.cq, RecvDone);
    CountStep(s.client.cq, RecvImm);
    CountStep(s.server.cq, RecvImm);
  }

  /** A block that arrives finds a posted receive. */
  lemma SessionInvWrite(s: Session)
    requires SessionInv(s) && s.writes > 0
    ensures s.server.recvs > 0 && SessionInv(WriteArrived(s))
  {
    CountStep(s.server.cq, RecvImm);
  }

  /** So does a control message. */
  lemma SessionInvCtrl(s: Session)
    requires SessionInv(s) && s.ctrls > 0
    ensures s.client.recvs > 0 && SessionInv(CtrlArrived(s))
  {
    CountStep(s.client.cq, RecvDone);
  }

  lemma SessionInvSignals(s: Session)
    requires SessionInv(s)
    ensures s.client.unsignaled > 0 ==> SessionInv(s.(client := Signaled(s.client, WriteDone)))
    ensures s.server.unsignaled > 0 ==> SessionInv(s.(server := Signaled(s.server, SendDone)))
  {
    CountStep(s.server.cq, SendDone);
    CountStep(s.client.cq, WriteDone);
  }

  lemma SessionInvStart(s: Session)
    requires SessionInv(s)
    ensures s.client.stage == SYNCED || CanStart(s.client, s.server) ==> SessionInv(ClientStarted(s))
    ensures CanStart(s.server, s.client) ==> SessionInv(s.(server := Start(s.server)))
    ensures s.released < s.collected ==> SessionInv(PushCtrl(s))
  {
  }

  /** The sessions the server has put into their groups so far. */
  function Placed(w: World): nat {
    if w.loop.Setup? then w.loop.next else |w.sessions|
  }

  function Copies(g: Group, i: nat): nat {
    multiset(g.inflight)[i] + multiset(g.ready)[i]
  }

  /** Every placed session is in the queues of its own group exactly once, and in no other group's. */
  ghost predicate QueuesInv(w: World) {
    && |w.home| == |w.sessions| && |w.groups| >= 1
    && Placed(w) <= |w.sessions|
    && (forall i | 0 <= i < |w.home| :: w.home[i] < |w.groups|)
    && forall g: nat, i: nat | g < |w.groups| :: InPlace(w, g, i)
  }

  ghost predicate InPlace(w: World, g: nat, i: nat)
    requires |w.home| == |w.sessions| && Placed(w) <= |w.sessions| && g < |w.groups|
  {
    Copies(w.groups[g], i) == Bit(i < Placed(w) && w.home[i] == g)
  }

  /** A session waits in a ready queue exactly while one more of its blocks is collected than released. */
  ghost predicate ReadyInv(w: World)
    requires QueuesInv(w)
  {
    && (forall i | 0 <= i < Placed(w) ::
          i in w.groups[w.home[i]].ready <==> w.sessions[i].collected == w.sessions[i].released + 1)
    && (forall i | 0 <= i < Placed(w) :: w.sessions[i].server.stage == SYNCED)
    && (forall i | Placed(w) <= i < |w.sessions| :: w.sessions[i].collected == 0)
  }

  ghost predicate RoundInv(w: World) {
    match w.loop
    case Setup(_) =>
      && w.round == 0
      && (forall i | 0 <= i < |w.sessions| :: w.sessions[i].collected == w.sessions[i].released == 0)
    case Reduce(g) =>
      && g < |w.groups|
      && (forall i | 0 <= i < |w.sessions| :: w.sessions[i].released == w.round)
      && (forall h | 0 <= h < g :: w.groups[h].inflight == [])
      && (forall h | g < h < |w.groups| :: w.groups[h].ready == [])
    case Broadcast(g) =>
      && g < |w.groups|
      && (forall i | 0 <= i < |w.sessions| :: w.sessions[i].collected == w.round + 1)
      && (forall h | 0 <= h < g :: w.groups[h].inflight == [])
      && (forall h | g < h < |w.groups| :: w.groups[h].ready == [])
  }

  ghost predicate Inv(w: World) {
    && (forall i | 0 <= i < |w.sessions| :: SessionInv(w.sessions[i]))
    && QueuesInv(w) && ReadyInv(w) && RoundInv(w)
  }

  lemma InvInit(home: seq<nat>, groups: nat)
    requires groups >= 1 && forall i | 0 <= i < |home| :: home[i] < groups
    ensures Inv(Init(home, groups))
  {
  }

  lemma PlaceOf(w: World, g: nat, i: nat)
    requires QueuesInv(w) && g < |w.groups|
    requires i in w.groups[g].inflight || i in w.groups[g].ready
    ensures i < Placed(w) && w.home[i] == g
    ensures i in w.groups[g].inflight <==> i !in w.groups[g].ready
  {
    assert InPlace(w, g, i);
  }

  /** The queues keep their property as long as no group gains or loses a session. */
  lemma QueuesKept(w: World, w': World)
    requires QueuesInv(w) && w'.home == w.home && |w'.sessions| == |w.sessions| && Placed(w') == Placed(w)
    requires |w'.groups| == |w.groups|
    requires forall g: nat, i: nat | g < |w.groups| :: Copies(w'.groups[g], i) == Copies(w.groups[g], i)
    ensures QueuesInv(w')
  {
    forall g: nat, i: nat | g < |w'.groups| ensures InPlace(w', g, i) {
      assert InPlace(w, g, i);
    }
  }

  /** Replacing a session by one with the same progress leaves the queues and rounds as they were. */
  lemma InvWith(w: World, i: nat, s: Session)
    requires Inv(w) && i < |w.sessions| && SessionInv(s)
    requires s.collected == w.sessions[i].collected && s.released == w.sessions[i].released
    requires s.server.stage == w.sessions[i].server.stage
    ensures Inv(With(w, i, s))
  {
    QueuesKept(w, With(w, i, s));
  }

  /** The steps of the clients change one session and nothing the queues depend on. */
  lemma InvStepClient(w: World, act: Act)
    requires Inv(w) && Enabled(w, act) && (act.ClientStart? || act.ClientPoll?)
    ensures Inv(Step(w, act))
  {
    var s := w.sessions[act.i];
    if act.ClientStart? {
      SessionInvStart(s);
      InvWith(w, act.i, ClientStarted(s));
    } else {
      SessionInvPolls(s);
      InvWith(w, act.i, ClientPolled(s));
    }
  }

  /** So do local completions and messages that arrive. */
  lemma InvStepChannel(w: World, act: Act)
    requires Inv(w) && Enabled(w, act) && (act.ClientSignal? || act.ServerSignal? || act.WriteArrives? || act.CtrlArrives?)
    ensures Inv(Step(w, act))
  {
    var s := w.sessions[act.i];
    match act
    case ClientSignal(i) =>
      SessionInvSignals(s);
      InvWith(w, i, s.(client := Signaled(s.client, WriteDone)));
    case ServerSignal(i) =>
      SessionInvSignals(s);
      InvWith(w, i, s.(server := Signaled(s.server, SendDone)));
    case WriteArrives(i) =>
      SessionInvWrite(s);
      InvWith(w, i, WriteArrived(s));
    case CtrlArrives(i) =>
      SessionInvCtrl(s);
      InvWith(w, i, CtrlArrived(s));
  }

  lemma InvStepStart(w: World)
    requires Inv(w) && Enabled(w, ServerStart)
    ensures Inv(Step(w, ServerStart))
  {
    var n := w.loop.next;
    if n < |w.sessions| {
      SessionInvStart(w.sessions[n]);
    }
    QueuesAfterStart(w);
    forall g: nat | g < |w.groups| ensures w.groups[g].ready == [] {
      if w.groups[g].ready != [] {
        PlaceOf(w, g, w.groups[g].ready[0]);
      }
    }
  }

  lemma QueuesAfterStart(w: World)
    requires QueuesInv(w) && Enabled(w, ServerStart)
    ensures QueuesInv(Step(w, ServerStart))
  {
    var w' := Step(w, ServerStart);
    forall g: nat, i: nat | g < |w'.groups| ensures InPlace(w', g, i) {
      assert InPlace(w, g, i);
    }
  }

  lemma CopiesAfterMove(a: seq<nat>, b: seq<nat>, i: nat)
    requires a != []
    ensures multiset(a[1..])[i] + multiset(b + [a[0]])[i] == multiset(a)[i] + multiset(b)[i]
    ensures multiset(a[1..] + [a[0]])[i] == multiset(a)[i]
  {
    assert a == [a[0]] + a[1..];
  }

  /** What a poll or a release leaves of the groups: one session moves within one group. */
  ghost predicate OneGroupMoves(w: World, w': World, g: nat)
    requires g < |w.groups|
  {
    && w'.home == w.home && |w'.sessions| == |w.sessions| && w'.loop == w.loop && |w'.groups| == |w.groups|
    && (forall h | 0 <= h < |w.groups| && h != g :: w'.groups[h] == w.groups[h])
    && forall i: nat :: Copies(w'.groups[g], i) == Copies(w.groups[g], i)
  }

  lemma QueuesAfterMove(w: World, w': World, g: nat)
    requires QueuesInv(w) && g < |w.groups| && OneGroupMoves(w, w', g)
    ensures QueuesInv(w')
  {
    forall h: nat, i: nat | h < |w.groups| ensures Copies(w'.groups[h], i) == Copies(w.groups[h], i) {
    }
    QueuesKept(w, w');
  }

  lemma PollMoves(w: World)
    requires Enabled(w, ServerPoll)
    ensures OneGroupMoves(w, Step(w, ServerPoll), w.loop.group)
  {
    var g := w.loop.group;
    forall i: nat ensures Copies(Step(w, ServerPoll).groups[g], i) == Copies(w.groups[g], i) {
      CopiesAfterMove(w.groups[g].inflight, w.groups[g].ready, i);
    }
  }

  lemma ReleaseMoves(w: World)
    requires Enabled(w, ReleaseOne)
    ensures OneGroupMoves(w, Step(w, ReleaseOne), w.loop.group)
  {
    var g := w.loop.group;
    forall i: nat ensures Copies(Step(w, ReleaseOne).groups[g], i) == Copies(w.groups[g], i) {
      CopiesAfterMove(w.groups[g].ready, w.groups[g].inflight, i);
    }
  }

  /** The session polled moves to the ready queue exactly when its block is collected. */
  lemma ReadyAfterPoll(w: World)
    requires QueuesInv(w) && ReadyInv(w) && Enabled(w, ServerPoll) && QueuesInv(Step(w, ServerPoll))
    requires SessionInv(w.sessions[w.groups[w.loop.group].inflight[0]])
    ensures ReadyInv(Step(w, ServerPoll))
  {
    var w' := Step(w, ServerPoll);
    var k := w.groups[w.loop.group].inflight[0];
    PlaceOf(w, w.loop.group, k);
    assert w.sessions[k].collected == w.sessions[k].released;
    forall i | 0 <= i < Placed(w')
      ensures i in w'.groups[w'.home[i]].ready <==> w'.sessions[i].collected == w'.sessions[i].released + 1
    {
      assert w.sessions[i].collected == w.sessions[i].released + 1 <==> i in w.groups[w.home[i]].ready;
    }
  }

  lemma InvStepPoll(w: World)
    requires Inv(w) && Enabled(w, ServerPoll)
    ensures Inv(Step(w, ServerPoll))
  {
    var k := w.groups[w.loop.group].inflight[0];
    PollMoves(w);
    QueuesAfterMove(w, Step(w, ServerPoll), w.loop.group);
    SessionInvPolls(w.sessions[k]);
    ReadyAfterPoll(w);
  }

  /** The session released leaves the ready queue as its control message is sent. */
  lemma ReadyAfterRelease(w: World)
    requires QueuesInv(w) && ReadyInv(w) && Enabled(w, ReleaseOne) && QueuesInv(Step(w, ReleaseOne))
    ensures ReadyInv(Step(w, ReleaseOne))
  {
    var w' := Step(w, ReleaseOne);
    var g := w.loop.group;
    var k := w.groups[g].ready[0];
    PlaceOf(w, g, k);
    assert k in w'.groups[g].inflight;
    PlaceOf(w', g, k);
    assert w.groups[g].ready == [k] + w.groups[g].ready[1..];
    forall i | 0 <= i < Placed(w')
      ensures i in w'.groups[w'.home[i]].ready <==> w'.sessions[i].collected == w'.sessions[i].released + 1
    {
      assert w.sessions[i].collected == w.sessions[i].released + 1 <==> i in w.groups[w.home[i]].ready;
    }
  }

  lemma InvStepRelease(w: World)
    requires Inv(w) && Enabled(w, ReleaseOne)
    ensures Inv(Step(w, ReleaseOne))
  {
    var k := w.groups[w.loop.group].ready[0];
    PlaceOf(w, w.loop.group, k);
    ReleaseMoves(w);
    QueuesAfterMove(w, Step(w, ReleaseOne), w.loop.group);
    SessionInvStart(w.sessions[k]);
    ReadyAfterRelease(w);
  }

  /** In empty inflight queues, or empty ready queues, every session is in the other queue of its group. */
  lemma AllInOneQueue(w: World, i: nat)
    requires QueuesInv(w) && Placed(w) == |w.sessions| && i < |w.sessions|
    ensures i in w.groups[w.home[i]].inflight <==> i !in w.groups[w.home[i]].ready
  {
    assert InPlace(w, w.home[i], i);
  }

  lemma InvStepDone(w: World, act: Act)
    requires Inv(w) && Enabled(w, act) && (act.ReduceDone? || act.BroadcastDone?)
    ensures Inv(Step(w, act))
  {
    QueuesKept(w, Step(w, act));
    forall i: nat | i < |w.sessions| ensures i in w.groups[w.home[i]].inflight <==> i !in w.groups[w.home[i]].ready {
      AllInOneQueue(w, i);
    }
  }

  lemma StepKeepsSize(w: World, act: Act)
    requires Enabled(w, act)
    ensures |Step(w, act).sessions| == |w.sessions| && Step(w, act).home == w.home && |Step(w, act).groups| == |w.groups|
  {
  }

  lemma InvStep(w: World, act: Act)
    requires Inv(w) && Enabled(w, act)
    ensures Inv(Step(w, act))
  {
    match act
    case ServerStart => InvStepStart(w);
    case ServerPoll => InvStepPoll(w);
    case ReleaseOne => InvStepRelease(w);
    case ReduceDone => InvStepDone(w, act);
    case BroadcastDone => InvStepDone(w, act);
    case ClientStart(_) => InvStepClient(w, act);
    case ClientPoll(_) => InvStepClient(w, act);
    case _ => InvStepChannel(w, act);
  }

  ghost predicate IsRun(home: seq<nat>, groups: nat, trace: seq<World>, acts: seq<Act>) {
    && |trace| == |acts| + 1
    && trace[0] == Init(home, groups)
    && forall k | 0 <= k < |acts| :: Enabled(trace[k], acts[k]) && trace[k + 1] == Step(trace[k], acts[k])
  }

  /** The server found a group for every session, and there is a group. */
  ghost predicate WellHomed(home: seq<nat>, groups: nat) {
    groups >= 1 && forall i | 0 <= i < |home| :: home[i] < groups
  }

  lemma {:induction false} RunInv(home: seq<nat>, groups: nat, trace: seq<World>, acts: seq<Act>, k: nat)
    requires WellHomed(home, groups) && IsRun(home, groups, trace, acts) && k < |trace|
    ensures Inv(trace[k]) && |trace[k].sessions| == |home| && trace[k].home == home && |trace[k].groups| == groups
  {
    if k == 0 {
      InvInit(home, groups);
    } else {
      RunInv(home, groups, trace, acts, k - 1);
      InvStep(trace[k - 1], acts[k - 1]);
      StepKeepsSize(trace[k - 1], acts[k - 1]);
    }
  }

  ghost predicate IsReady(w: World, i: nat) {
    exists g: nat :: g < |w.groups| && i in w.groups[g].ready
  }

  ghost predicate AllCollected(w: World, n: nat) {
    forall i | 0 <= i < |w.sessions| :: w.sessions[i].collected == n
  }

  ghost predicate AllReleased(w: World, n: nat) {
    forall i | 0 <= i < |w.sessions| :: w.sessions[i].released == n
  }

  /**
   In every run no message ever arrives without a posted receive, a message in flight always has one
   waiting for it, and of the block in flight, the session waiting in a ready queue and the control
   message in flight there is at most one at a time.
   */
  lemma ReceiveAlwaysPosted(home: seq<nat>, groups: nat, trace: seq<World>, acts: seq<Act>, k: nat, i: nat)
    requires WellHomed(home, groups) && IsRun(home, groups, trace, acts) && k < |trace| && i < |home|
    ensures i < |trace[k].sessions|
    ensures var s := trace[k].sessions[i];
            && !s.rnr
            && (s.writes > 0 ==> s.server.recvs > 0)
            && (s.ctrls > 0 ==> s.client.recvs > 0)
            && s.writes + Bit(IsReady(trace[k], i)) + s.ctrls <= 1
  {
    RunInv(home, groups, trace, acts, k);
    var w := trace[k];
    assert SessionInv(w.sessions[i]);
    if IsReady(w, i) {
      var g: nat :| g < |w.groups| && i in w.groups[g].ready;
      PlaceOf(w, g, i);
    }
  }

  ghost predicate InOwnQueueOnce(w: World, home: seq<nat>, g: nat, i: nat)
    requires g < |w.groups| && Placed(w) <= |home|
  {
    multiset(w.groups[g].inflight + w.groups[g].ready)[i] == Bit(i < Placed(w) && home[i] == g)
  }

  /** Every session the server has set up is in its own group's queues, in exactly one of the two and once. */
  lemma SessionsAreConserved(home: seq<nat>, groups: nat, trace: seq<World>, acts: seq<Act>, k: nat)
    requires WellHomed(home, groups) && IsRun(home, groups, trace, acts) && k < |trace|
    ensures |trace[k].groups| == groups && Placed(trace[k]) <= |home|
    ensures forall g: nat, i: nat | g < groups :: InOwnQueueOnce(trace[k], home, g, i)
  {
    RunInv(home, groups, trace, acts, k);
    forall g: nat, i: nat | g < groups ensures InOwnQueueOnce(trace[k], home, g, i) {
      assert InPlace(trace[k], g, i);
    }
  }

  /**
   When any session is released in round r, every session of every group has had its block of round r
   collected; releases of two sessions never differ by more than one, and between rounds they are equal:
   one control send per session per round.
   */
  lemma NoReleaseBeforeAllCollected(home: seq<nat>, groups: nat, trace: seq<World>, acts: seq<Act>, k: nat)
    requires WellHomed(home, groups) && IsRun(home, groups, trace, acts) && k < |trace|
    ensures k < |acts| && acts[k].ReleaseOne? ==>
              AllCollected(trace[k], trace[k].round + 1)
    ensures forall i | 0 <= i < |trace[k].sessions| ::
              trace[k].round <= trace[k].sessions[i].released <= trace[k].round + Bit(trace[k].loop.Broadcast?)
    ensures k < |acts| && acts[k].BroadcastDone? && trace[k + 1].loop.Reduce? ==>
              AllReleased(trace[k + 1], trace[k + 1].round)
  {
    RunInv(home, groups, trace, acts, k);
    if k < |acts| {
      InvStep(trace[k], acts[k]);
    }
  }
}
