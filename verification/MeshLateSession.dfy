/**
 A session that connects after `max_QP` was read: the run in which the check before its release finds its
 queue filled.
 */
module MeshLateSession {
  import opened MeshBarrier

  ghost predicate Reachable(n: nat, w: World) {
    exists trace, acts :: IsRun(n, trace, acts) && trace[|acts|] == w
  }

  lemma ReachInit(n: nat)
    ensures Reachable(n, Init(n))
  {
    assert IsRun(n, [Init(n)], []);
  }

  lemma RunGrows(n: nat, trace: seq<World>, acts: seq<Act>, act: Act)
    requires IsRun(n, trace, acts) && Enabled(trace[|acts|], act)
    ensures Reachable(n, Step(trace[|acts|], act))
  {
    var trace', acts' := trace + [Step(trace[|acts|], act)], acts + [act];
    forall k | 0 <= k < |acts'| ensures Enabled(trace'[k], acts'[k]) && trace'[k + 1] == Step(trace'[k], acts'[k]) {
      if k < |acts| {
        assert trace'[k] == trace[k] && trace'[k + 1] == trace[k + 1] && acts'[k] == acts[k];
      }
    }
    assert IsRun(n, trace', acts') && trace'[|acts'|] == Step(trace[|acts|], act);
  }

  lemma ReachStep(n: nat, w: World, act: Act)
    requires Reachable(n, w) && Enabled(w, act)
    ensures Reachable(n, Step(w, act))
  {
    var trace, acts :| IsRun(n, trace, acts) && trace[|acts|] == w;
    RunGrows(n, trace, acts, act);
  }

  lemma ReachInv(n: nat, w: World)
    requires n <= BITMAP_SIZE && Reachable(n, w)
    ensures Inv(w) && w.members == n
  {
    var trace, acts :| IsRun(n, trace, acts) && trace[|acts|] == w;
    RunInv(n, trace, acts, |acts|);
  }

  /** Given its first go-ahead; its block handed over; its block collected. */
  const GIVEN := GiveGo(FRESH)
  const HANDED := Session([], [], NeedGo, [], [BLOCK], 1, 0)
  const DONE := Session([], [], NeedGo, [], [], 1, 1)

  /** `n` members and one more session; those below `k` are in state `a`, the others in state `b`. */
  ghost predicate Two(n: nat, w: World, k: nat, a: Session, b: Session) {
    && Reachable(n, w) && |w.sessions| == n + 1
    && forall i | 0 <= i <= n :: w.sessions[i] == if i < k then a else b
  }

  lemma {:induction false} GiveAll(n: nat, k: nat) returns (w: World)
    requires n <= BITMAP_SIZE && k <= n + 1
    ensures Two(n, w, k, GIVEN, FRESH) && w.phase == Start(k)
  {
    if k == 0 {
      ReachInit(n);
      ReachStep(n, Init(n), Join);
      w := Step(Init(n), Join);
    } else {
      var v := GiveAll(n, k - 1);
      ReachInv(n, v);
      ReachStep(n, v, SyncStep);
      w := Step(v, SyncStep);
    }
  }

  /** A session's step, with the session it leads to. */
  lemma StepTo(n: nat, w: World, i: nat, act: Act, s: Session) returns (w': World)
    requires Reachable(n, w) && i < |w.sessions| && !act.SyncStep? && !act.Join? && act.i == i && Enabled(w, act)
    requires Step(w, act).sessions[i] == s
    ensures Reachable(n, w') && w' == With(w, i, s)
  {
    ReachStep(n, w, act);
    w' := Step(w, act);
  }

  /** The session has received its go-ahead and not yet answered it. */
  const SENT := Session([GO], [], Waiting, [], [], 1, 0)

  lemma SendHello(n: nat, w: World, i: nat) returns (w': World)
    requires Reachable(n, w) && i < |w.sessions| && w.sessions[i] == GIVEN
    ensures Reachable(n, w') && w' == With(w, i, Session([], [], NeedGo, [SIG], [], 1, 0))
  {
    w' := StepTo(n, w, i, ClientReceives(i), Session([], [HELLO], Waiting, [SIG], [], 1, 0));
    w' := StepTo(n, w', i, TakeCompletion(i), Session([], [], Got(HELLO), [SIG], [], 1, 0));
    w' := StepTo(n, w', i, HandleImm(i), Session([], [], NeedGo, [SIG], [], 1, 0));
  }

  lemma PassGo(n: nat, w: World, i: nat) returns (w': World)
    requires Reachable(n, w) && i < |w.sessions| && w.sessions[i] == Session([], [], NeedGo, [SIG], [], 1, 0)
    ensures Reachable(n, w') && w' == With(w, i, SENT)
  {
    w' := StepTo(n, w, i, PopGo(i), Session([], [], Sending, [], [], 1, 0));
    w' := StepTo(n, w', i, SendGo(i), SENT);
  }

  lemma SendBlock(n: nat, w: World, i: nat) returns (w': World)
    requires Reachable(n, w) && i < |w.sessions| && w.sessions[i] == SENT
    ensures Reachable(n, w') && w' == With(w, i, HANDED)
  {
    w' := StepTo(n, w, i, ClientReceives(i), Session([], [BLOCK], Waiting, [], [], 1, 0));
    w' := StepTo(n, w', i, TakeCompletion(i), Session([], [], Got(BLOCK), [], [], 1, 0));
    w' := StepTo(n, w', i, HandleImm(i), HANDED);
  }

  /** A session's way from its first go-ahead to its block in q2. */
  lemma HandOver(n: nat, w: World, i: nat) returns (w': World)
    requires Reachable(n, w) && i < |w.sessions| && w.sessions[i] == GIVEN
    ensures Reachable(n, w') && w' == With(w, i, HANDED)
  {
    w' := SendHello(n, w, i);
    w' := PassGo(n, w', i);
    w' := SendBlock(n, w', i);
  }

  lemma {:induction false} HandOverAll(n: nat, k: nat) returns (w: World)
    requires n <= BITMAP_SIZE && k <= n + 1
    ensures Two(n, w, k, HANDED, GIVEN) && w.phase == Scan(0)
  {
    if k == 0 {
      var v := GiveAll(n, n + 1);
      ReachInv(n, v);
      ReachStep(n, v, SyncStep);
      w := Step(v, SyncStep);
    } else {
      var v := HandOverAll(n, k - 1);
      w := HandOver(n, v, k - 1);
    }
  }

  lemma {:induction false} CollectAll(n: nat, k: nat) returns (w: World)
    requires n <= BITMAP_SIZE && k <= n
    ensures Two(n, w, k, DONE, HANDED) && w.phase == Scan(k)
  {
    if k == 0 {
      w := HandOverAll(n, n + 1);
    } else {
      var v := CollectAll(n, k - 1);
      ReachInv(n, v);
      assert AtRound(v, k - 1) && v.sessions[k - 1] == HANDED;
      ReachStep(n, v, SyncStep);
      w := Step(v, SyncStep);
    }
  }

  lemma Complete(n: nat) returns (w: World)
    requires n <= BITMAP_SIZE
    ensures Two(n, w, n, DONE, HANDED) && w.phase == Release(0)
  {
    var v := CollectAll(n, n);
    ReachInv(n, v);
    forall i | 0 <= i < n ensures v.sync.bitmap[i] {
      assert AtRound(v, i) && v.sessions[i] == DONE;
    }
    BitsAll(v.sync.bitmap, n);
    ReachStep(n, v, SyncStep);
    var c := Step(v, SyncStep);
    ReachStep(n, c, SyncStep);
    w := Step(c, SyncStep);
  }

  lemma {:induction false} ReleaseUpTo(n: nat, k: nat) returns (w: World)
    requires n <= BITMAP_SIZE && k <= n
    ensures Reachable(n, w) && |w.sessions| == n + 1 && w.phase == Release(k) && w.sessions[n] == HANDED
  {
    if k == 0 {
      w := Complete(n);
    } else {
      var v := ReleaseUpTo(n, k - 1);
      ReachInv(n, v);
      ReachStep(n, v, SyncStep);
      w := Step(v, SyncStep);
    }
  }

  /**
   However many sessions are connected in time, one that connects right after can be found with a block in
   its q2 where the code logs "MUST be empty".
   */
  lemma LateSessionIsNotEmpty(n: nat) returns (w: World)
    requires n <= BITMAP_SIZE
    ensures Reachable(n, w) && w.phase == Release(n) && n < |w.sessions|
    ensures w.sessions[n].q2 == [BLOCK]
  {
    w := ReleaseUpTo(n, n);
  }
}
