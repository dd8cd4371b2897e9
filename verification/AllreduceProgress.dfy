/** The rounds go on: every run can be brought to the end of its round, and the groups of a round are served in order. */
module AllreduceProgress {
  import opened AllreduceRounds
  import opened Wrappers

  ghost predicate Leads(w: World, acts: seq<Act>, w': World)
    decreases |acts|
  {
    if acts == [] then w' == w else Enabled(w, acts[0]) && Leads(Step(w, acts[0]), acts[1..], w')
  }

  lemma {:induction false} LeadsCat(w: World, a: seq<Act>, v: World, b: seq<Act>, w': World)
    requires Leads(w, a, v) && Leads(v, b, w')
    ensures Leads(w, a + b, w')
    decreases |a|
  {
    if a == [] {
      assert a + b == b;
    } else {
      assert (a + b)[1..] == a[1..] + b;
      LeadsCat(Step(w, a[0]), a[1..], v, b, w');
    }
  }

  function Minus(a: nat, b: nat): nat {
    if b <= a then a - b else 0
  }

  /** An upper bound on the steps after which nothing of the session is left to arrive or to be handled. */
  function Pending(s: Session): nat {
    3 * Minus(RUNNING, s.client.stage) + Minus(SYNCED, s.server.stage)
    + 4 * s.ctrls + 3 * |s.client.cq| + 2 * s.writes + |s.server.cq|
  }

  function Weight(sessions: seq<Session>): nat {
    if sessions == [] then 0 else Weight(sessions[..|sessions| - 1]) + Pending(sessions[|sessions| - 1])
  }

  lemma {:induction false} WeightLess(sessions: seq<Session>, i: nat, s: Session)
    requires i < |sessions| && Pending(s) < Pending(sessions[i])
    ensures Weight(sessions[i := s]) < Weight(sessions)
  {
    var init := sessions[..|sessions| - 1];
    if i == |init| {
      assert sessions[i := s][..|sessions| - 1] == init;
    } else {
      assert sessions[i := s][..|sessions| - 1] == init[i := s];
      WeightLess(init, i, s);
    }
  }

  /** The step that brings a session's block nearer to the server. */
  function Nearer(s: Session, i: nat): Act {
    if s.client.stage < RUNNING then ClientStart(i)
    else if s.writes > 0 then WriteArrives(i)
    else if s.ctrls > 0 then CtrlArrives(i)
    else ClientPoll(i)
  }

  /** Until its block has arrived, a session in flight always has such a step. */
  lemma NearerStep(w: World, i: nat)
    requires Inv(w) && i < |w.sessions| && w.sessions[i].server.stage == SYNCED
    requires w.sessions[i].server.cq == [] && w.sessions[i].collected == w.sessions[i].released
    ensures var act := Nearer(w.sessions[i], i);
            Enabled(w, act) && Pending(Step(w, act).sessions[i]) < Pending(w.sessions[i])
            && Step(w, act) == With(w, i, Step(w, act).sessions[i])
  {
    assert SessionInv(w.sessions[i]);
  }

  function Rank(loop: Loop): nat {
    match loop
    case Setup(_) => 2
    case Reduce(_) => 1
    case Broadcast(_) => 0
  }

  function ToGo(w: World): nat {
    match w.loop
    case Setup(next) => Minus(|w.sessions|, next)
    case Reduce(g) => Minus(|w.groups|, g)
    case Broadcast(g) => g
  }

  function Load(w: World): nat {
    match w.loop
    case Broadcast(g) => if g < |w.groups| then |w.groups[g].ready| else 0
    case _ => Weight(w.sessions)
  }

  /** One step further within the round. */
  ghost predicate Further(w: World, act: Act) {
    && Enabled(w, act) && Step(w, act).round == w.round
    && var v := Step(w, act);
       Rank(v.loop) < Rank(w.loop)
       || (Rank(v.loop) == Rank(w.loop) && (ToGo(v) < ToGo(w) || (ToGo(v) == ToGo(w) && Load(v) < Load(w))))
  }

  /** A step that changes one session, and nothing else but perhaps the queues. */
  lemma SessionFurther(w: World, act: Act, i: nat, s: Session)
    requires Enabled(w, act) && !w.loop.Broadcast? && i < |w.sessions| && Pending(s) < Pending(w.sessions[i])
    requires Step(w, act).sessions == w.sessions[i := s] && Step(w, act).round == w.round && Step(w, act).loop == w.loop
    requires |Step(w, act).groups| == |w.groups|
    ensures Further(w, act)
  {
    WeightLess(w.sessions, i, s);
  }

  lemma SetupFurther(w: World) returns (act: Act)
    requires Inv(w) && w.loop.Setup?
    ensures Further(w, act)
  {
    var i := w.loop.next;
    act := ServerStart;
    if i < |w.sessions| && w.sessions[i].server.stage != SYNCED {
      act := StartFurther(w, i);
    }
  }

  /** In the start-up one of the two ends never has to wait for the other. */
  lemma StartFurther(w: World, i: nat) returns (act: Act)
    requires Inv(w) && w.loop == Setup(i) && i < |w.sessions| && w.sessions[i].server.stage != SYNCED
    ensures Further(w, act)
  {
    var s := w.sessions[i];
    assert SessionInv(s);
    if CanStart(s.server, s.client) {
      act := ServerStart;
      SessionFurther(w, act, i, s.(server := Start(s.server)));
    } else {
      act := ClientStart(i);
      SessionFurther(w, act, i, ClientStarted(s));
    }
  }

  /** A session in the inflight queue is set up, and no block of it is collected and not released. */
  lemma InflightIsEven(w: World, g: nat, i: nat)
    requires Inv(w) && w.loop.Reduce? && g < |w.groups| && i in w.groups[g].inflight
    ensures i < |w.sessions| && w.sessions[i].server.stage == SYNCED && w.sessions[i].collected == w.sessions[i].released
  {
    PlaceOf(w, g, i);
    assert SessionInv(w.sessions[i]);
  }

  lemma ReduceFurther(w: World) returns (act: Act)
    requires Inv(w) && w.loop.Reduce?
    ensures Further(w, act)
  {
    var g := w.loop.group;
    act := ReduceDone;
    if w.groups[g].inflight != [] {
      var i := w.groups[g].inflight[0];
      InflightIsEven(w, g, i);
      var s := w.sessions[i];
      if s.server.cq != [] {
        act := ServerPoll;
        SessionFurther(w, act, i, ServerPolled(s));
      } else {
        act := Nearer(s, i);
        NearerStep(w, i);
        SessionFurther(w, act, i, Step(w, act).sessions[i]);
      }
    }
  }

  lemma BroadcastFurther(w: World) returns (act: Act)
    requires Inv(w) && w.loop.Broadcast? && (w.loop.group > 0 || w.groups[0].ready != [])
    ensures Further(w, act)
  {
    var g := w.loop.group;
    act := BroadcastDone;
    if w.groups[g].ready != [] {
      act := ReleaseOne;
      PlaceOf(w, g, w.groups[g].ready[0]);
    }
  }

  lemma LastStep(w: World)
    requires Inv(w) && w.loop == Broadcast(0) && w.groups[0].ready == []
    ensures Enabled(w, BroadcastDone)
    ensures var v := Step(w, BroadcastDone);
            Inv(v) && v.round == w.round + 1 && v.loop == Reduce(0) && AllCollected(v, v.round) && AllReleased(v, v.round)
  {
    InvStep(w, BroadcastDone);
  }

  /** From every state, during the set-up as well, the round can be brought to its end. */
  lemma {:induction false} RoundEnds(w: World) returns (acts: seq<Act>, w': World)
    requires Inv(w)
    ensures Leads(w, acts, w') && Inv(w') && |w'.sessions| == |w.sessions|
    ensures w'.round == w.round + 1 && w'.loop == Reduce(0) && AllCollected(w', w'.round) && AllReleased(w', w'.round)
    decreases Rank(w.loop), ToGo(w), Load(w)
  {
    if w.loop == Broadcast(0) && w.groups[0].ready == [] {
      LastStep(w);
      acts, w' := [BroadcastDone], Step(w, BroadcastDone);
      assert acts[1..] == [];
    } else {
      var act;
      match w.loop {
        case Setup(_) => act := SetupFurther(w);
        case Reduce(_) => act := ReduceFurther(w);
        case Broadcast(_) => act := BroadcastFurther(w);
      }
      InvStep(w, act);
      StepKeepsSize(w, act);
      var rest;
      rest, w' := RoundEnds(Step(w, act));
      acts := [act] + rest;
      assert acts[1..] == rest;
    }
  }

  lemma {:induction false} ManyRounds(v: World, rounds: nat) returns (more: seq<Act>, w: World)
    requires Inv(v) && rounds > 0
    ensures Leads(v, more, w) && Inv(w) && |w.sessions| == |v.sessions|
    ensures w.round == v.round + rounds && w.loop == Reduce(0) && AllCollected(w, w.round) && AllReleased(w, w.round)
    decreases rounds
  {
    more, w := RoundEnds(v);
    if rounds > 1 {
      var rest, w1 := ManyRounds(w, rounds - 1);
      LeadsCat(v, more, w, rest, w1);
      more, w := more + rest, w1;
    }
  }

  /** Every run can go on for any number of rounds, after each of which every session was collected and released once more. */
  lemma EveryRunGoesOn(home: seq<nat>, groups: nat, trace: seq<World>, acts: seq<Act>, rounds: nat)
    returns (more: seq<Act>, w: World)
    requires WellHomed(home, groups) && IsRun(home, groups, trace, acts) && rounds > 0
    ensures Leads(trace[|acts|], more, w) && w.round == trace[|acts|].round + rounds && w.loop == Reduce(0)
    ensures |w.sessions| == |home| && AllCollected(w, w.round) && AllReleased(w, w.round)
  {
    RunInv(home, groups, trace, acts, |acts|);
    more, w := ManyRounds(trace[|acts|], rounds);
  }

  /**
   Groups are collected from the first to the last and released from the last to the first: when a session of
   a group is polled, all of the groups before have been collected in this round and none of those after,
   and when one is released, all of the groups after it have been released and none of those before.
   */
  lemma GroupsInOrder(home: seq<nat>, groups: nat, trace: seq<World>, acts: seq<Act>, k: nat, i: nat)
    requires WellHomed(home, groups) && IsRun(home, groups, trace, acts) && k < |acts| && i < |home|
    ensures i < |trace[k].sessions|
    ensures var w, s := trace[k], trace[k].sessions[i];
            && (acts[k].ServerPoll? && home[i] < w.loop.group ==> s.collected == w.round + 1)
            && (acts[k].ServerPoll? && home[i] > w.loop.group ==> s.collected == w.round)
            && (acts[k].ReleaseOne? && home[i] > w.loop.group ==> s.released == w.round + 1)
            && (acts[k].ReleaseOne? && home[i] < w.loop.group ==> s.released == w.round)
  {
    RunInv(home, groups, trace, acts, k);
    var w := trace[k];
    assert SessionInv(w.sessions[i]);
    if acts[k].ServerPoll? || acts[k].ReleaseOne? {
      AllInOneQueue(w, i);
    }
  }

  /** Both ends of every session take their completions in the order in which they came. */
  lemma CompletionsInOrder(w: World, act: Act, i: nat)
    requires Enabled(w, act) && i < |w.sessions|
    ensures i < |Step(w, act).sessions|
    ensures Fifo(w.sessions[i].client.cq, Step(w, act).sessions[i].client.cq)
    ensures Fifo(w.sessions[i].server.cq, Step(w, act).sessions[i].server.cq)
  {
  }

  /**
   The loop polls and releases the sessions in turn: the session polled or released leaves the front of its
   queue, so that the next one is up, and is last in the queue it goes to.
   */
  lemma SessionsInTurn(w: World, act: Act)
    requires Enabled(w, act) && (act.ServerPoll? || act.ReleaseOne?)
    ensures w.loop.group < |w.groups| == |Step(w, act).groups|
    ensures var g, h := w.groups[w.loop.group], Step(w, act).groups[w.loop.group];
            && (act.ServerPoll? ==> |g.inflight| > 1 ==> h.inflight != [] && h.inflight[0] == g.inflight[1])
            && (act.ServerPoll? ==> if h.ready != g.ready then h.ready != [] && h.ready[|h.ready| - 1] == g.inflight[0] && g.ready <= h.ready
                                    else h.inflight != [] && h.inflight[|h.inflight| - 1] == g.inflight[0])
            && (act.ReleaseOne? ==> |g.ready| > 1 ==> h.ready != [] && h.ready[0] == g.ready[1])
            && (act.ReleaseOne? ==> g.inflight <= h.inflight && h.inflight[|g.inflight|..] == [g.ready[0]])
  {
    var g := w.groups[w.loop.group];
    assert act.ServerPoll? ==> |g.ready + [g.inflight[0]]| != |g.ready|;
  }
}
