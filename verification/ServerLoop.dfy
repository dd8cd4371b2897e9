/** The server's `do_reduce`, `broadcast` and tree round on session objects, for any outcome of the polls. */
module ServerLoop {
  import opened RoundRobin

  datatype Opcode = Send | Recv | Write | RecvImm | Unknown

  datatype Poll = Nothing | Completed(op: Opcode)

  /** What the server does to a session; the methods below append what they do to a log. */
  datatype Event = Got(session: Session) | Sent(session: Session)

  /** A session as the server's loop sees it; `upcoming` is what the next polls will return. */
  class Session {
    var upcoming: seq<Poll>
    var recvsPosted: nat
    var ctrlsSent: nat

    method PeekStatus() returns (r: Poll)
      requires upcoming != []
      modifies this`upcoming
      ensures r == old(upcoming)[0] && upcoming == old(upcoming)[1..]
    {
      r := upcoming[0];
      upcoming := upcoming[1..];
    }

    method PullCtrl(ghost log: seq<Event>) returns (ghost log': seq<Event>)
      modifies this`recvsPosted
      ensures recvsPosted == old(recvsPosted) + 1 && log' == log + [Got(this)]
    {
      recvsPosted := recvsPosted + 1;
      log' := log + [Got(this)];
    }

    method PushCtrl(ghost log: seq<Event>) returns (ghost log': seq<Event>)
      modifies this`ctrlsSent
      ensures ctrlsSent == old(ctrlsSent) + 1 && log' == log + [Sent(this)]
    {
      ctrlsSent := ctrlsSent + 1;
      log' := log + [Sent(this)];
    }
  }

  class Group {
    var inflight: seq<Session>
    var ready: seq<Session>
  }

  /** The polls up to and including the first immediate completion. */
  function ToImm(upcoming: seq<Poll>): nat {
    if upcoming == [] || upcoming[0] == Completed(RecvImm) then 1 else 1 + ToImm(upcoming[1..])
  }

  /** The session's immediate completion comes after finitely many polls. */
  predicate Completes(upcoming: seq<Poll>) {
    Completed(RecvImm) in upcoming
  }

  /** What is left after them. */
  function After(upcoming: seq<Poll>): seq<Poll> {
    if upcoming == [] then []
    else if upcoming[0] == Completed(RecvImm) then upcoming[1..]
    else After(upcoming[1..])
  }

  lemma {:induction false} AfterIsSuffix(upcoming: seq<Poll>)
    requires Completes(upcoming)
    ensures ToImm(upcoming) <= |upcoming| && upcoming[ToImm(upcoming) - 1] == Completed(RecvImm)
    ensures Completed(RecvImm) !in upcoming[..ToImm(upcoming) - 1]
    ensures After(upcoming) == upcoming[ToImm(upcoming)..]
  {
    if upcoming[0] != Completed(RecvImm) {
      assert upcoming == [upcoming[0]] + upcoming[1..];
      AfterIsSuffix(upcoming[1..]);
      var k := ToImm(upcoming[1..]);
      assert upcoming[..k] == [upcoming[0]] + upcoming[1..][..k - 1];
    }
  }

  ghost function Needs(queue: seq<Session>): (needs: seq<nat>)
    reads queue
    ensures |needs| == |queue| && forall i | 0 <= i < |queue| :: needs[i] == ToImm(queue[i].upcoming)
  {
    seq(|queue|, i requires 0 <= i < |queue| reads queue => ToImm(queue[i].upcoming))
  }

  /** The polls a queue of sessions needs until every immediate completion has been seen. */
  ghost function Need(queue: seq<Session>): nat
    reads queue
  {
    if queue == [] then 0 else ToImm(queue[0].upcoming) + Need(queue[1..])
  }

  lemma {:induction false} NeedAppend(queue: seq<Session>, s: Session)
    ensures Need(queue + [s]) == Need(queue) + ToImm(s.upcoming)
  {
    if queue == [] {
      assert queue + [s] == [s];
    } else {
      assert (queue + [s])[1..] == queue[1..] + [s];
      NeedAppend(queue[1..], s);
    }
  }

  twostate lemma {:induction false} NeedSame(queue: seq<Session>)
    requires forall s | s in queue :: s.upcoming == old(s.upcoming)
    ensures Need(queue) == old(Need(queue))
  {
    if queue != [] {
      NeedSame(queue[1..]);
    }
  }

  ghost predicate Distinct(s: seq<Session>) {
    forall i, j | 0 <= i < j < |s| :: s[i] != s[j]
  }

  /** A session still in flight has only consumed polls from before its immediate completion. */
  twostate predicate StillInflight(s: Session)
    reads s
  {
    && s.recvsPosted == old(s.recvsPosted) && s.ctrlsSent == old(s.ctrlsSent)
    && Completes(s.upcoming) && After(s.upcoming) == After(old(s.upcoming))
  }

  /** A collected session has consumed its polls up to the first immediate completion and got one new receive. */
  twostate predicate Collected(s: Session)
    reads s
  {
    && s.recvsPosted == old(s.recvsPosted) + 1 && s.ctrlsSent == old(s.ctrlsSent)
    && s.upcoming == After(old(s.upcoming))
  }

  lemma PollStep(upcoming: seq<Poll>)
    requires Completes(upcoming)
    ensures upcoming != []
    ensures upcoming[0] == Completed(RecvImm) <==> ToImm(upcoming) == 1
    ensures upcoming[0] == Completed(RecvImm) ==> After(upcoming) == upcoming[1..]
    ensures upcoming[0] != Completed(RecvImm) ==>
              Completes(upcoming[1..]) && ToImm(upcoming) == 1 + ToImm(upcoming[1..]) && After(upcoming) == After(upcoming[1..])
  {
    assert upcoming == [upcoming[0]] + upcoming[1..];
  }

  lemma Rotated(before: seq<Session>)
    requires before != [] && Distinct(before)
    ensures forall s :: s in before[1..] + [before[0]] <==> s in before
    ensures forall s :: s in before[1..] <==> s in before && s != before[0]
    ensures multiset(before[1..] + [before[0]]) == multiset(before) == multiset(before[1..]) + multiset{before[0]}
    ensures Distinct(before[1..]) && Distinct(before[1..] + [before[0]])
  {
    assert before == [before[0]] + before[1..];
  }

  /** The sessions of a queue with the polls they still need. */
  ghost function Left(queue: seq<Session>): (left: seq<(Session, nat)>)
    reads queue
    ensures |left| == |queue| && Positive(left)
    ensures forall k | 0 <= k < |left| :: left[k] == (queue[k], ToImm(queue[k].upcoming))
  {
    seq(|queue|, k requires 0 <= k < |queue| reads queue => (queue[k], ToImm(queue[k].upcoming)))
  }

  function Gots(sessions: seq<Session>): (events: seq<Event>)
    ensures |events| == |sessions|
  {
    seq(|sessions|, k requires 0 <= k < |sessions| => Got(sessions[k]))
  }

  function Sents(sessions: seq<Session>): (events: seq<Event>)
    ensures |events| == |sessions|
  {
    seq(|sessions|, k requires 0 <= k < |sessions| => Sent(sessions[k]))
  }

  lemma GotsFirst(s: Session, rest: seq<Session>)
    ensures Gots([s] + rest) == [Got(s)] + Gots(rest)
  {
  }

  /** A poll of the front session leaves what the queues and the log will hold in the end. */
  lemma TurnConserves(left: seq<(Session, nat)>, left': seq<(Session, nat)>, ready: seq<Session>, ready': seq<Session>,
                      events: seq<Event>, events': seq<Event>)
    requires left != [] && Positive(left) && Positive(left')
    requires left[0].1 == 1 ==>
               left' == left[1..] && ready' == ready + [left[0].0] && events' == events + [Got(left[0].0)]
    requires left[0].1 != 1 ==> left' == left[1..] + [(left[0].0, left[0].1 - 1)] && ready' == ready && events' == events
    ensures ready' + Order(left') == ready + Order(left)
    ensures events' + Gots(Order(left')) == events + Gots(Order(left))
  {
    PollConserves(left, left', ready, ready');
    OrderFirst(left, left');
    if left[0].1 == 1 {
      Reassociate(events, [Got(left[0].0)], Gots(Order(left')));
      GotsFirst(left[0].0, Order(left'));
    }
  }

  lemma AllDone(ready: seq<Session>, log: seq<Event>, left: seq<(Session, nat)>)
    requires left == []
    ensures ready + Order(left) == ready && log + Gots(Order(left)) == log
  {
  }

  /** One turn of the loop: the front session leaves the inflight queue, for the ready queue or for its own end. */
  method PollFront(group: Group, ghost log: seq<Event>) returns (ghost log': seq<Event>)
    requires group.inflight != [] && group.inflight[0].upcoming != [] && Distinct(group.inflight)
    modifies group, group.inflight[0]
    ensures Distinct(group.inflight) && old(group.ready) <= group.ready
    ensures multiset(group.ready) + multiset(group.inflight) == old(multiset(group.ready) + multiset(group.inflight))
    ensures forall s :: s in group.inflight <==>
                          s in old(group.inflight) && (s != old(group.inflight)[0] || old(s.upcoming)[0] != Completed(RecvImm))
    ensures var sess := old(group.inflight)[0];
            && sess.upcoming == old(sess.upcoming)[1..] && sess.ctrlsSent == old(sess.ctrlsSent)
            && if old(sess.upcoming)[0] == Completed(RecvImm)
               then && group.inflight == old(group.inflight)[1..] && group.ready == old(group.ready) + [sess]
                    && sess.recvsPosted == old(sess.recvsPosted) + 1 && log' == log + [Got(sess)]
               else && group.inflight == old(group.inflight)[1..] + [sess] && group.ready == old(group.ready)
                    && sess.recvsPosted == old(sess.recvsPosted) && log' == log
  {
    log' := log;
    var sess := group.inflight[0];
    Rotated(group.inflight);
    group.inflight := group.inflight[1..];
    var sessionReady := false;
    var status := sess.PeekStatus();
    if status == Completed(RecvImm) {
      sessionReady := true;
      log' := sess.PullCtrl(log);
      group.ready := group.ready + [sess];
    }
    if !sessionReady {
      group.inflight := group.inflight + [sess];
    }
  }

  /** The same for sessions that complete: fewer polls are needed afterwards, and the front session has one poll less or is collected. */
  method PollNext(group: Group, ghost log: seq<Event>) returns (ghost log': seq<Event>)
    requires group.inflight != [] && Distinct(group.inflight)
    requires forall s | s in group.inflight :: Completes(s.upcoming)
    modifies group, group.inflight[0]
    ensures Distinct(group.inflight) && old(group.ready) <= group.ready
    ensures multiset(group.ready) + multiset(group.inflight) == old(multiset(group.ready) + multiset(group.inflight))
    ensures forall s :: s in group.inflight ==> s in old(group.inflight)
    ensures forall s | s in old(group.inflight) && s != old(group.inflight)[0] :: s in group.inflight
    ensures var sess := old(group.inflight)[0];
            if sess in group.inflight then StillInflight(sess) else Collected(sess)
    ensures Need(group.inflight) < old(Need(group.inflight))
    ensures group.ready + Order(Left(group.inflight)) == old(group.ready + Order(Left(group.inflight)))
    ensures log' + Gots(Order(Left(group.inflight))) == log + Gots(old(Order(Left(group.inflight))))
  {
    ghost var sess, rest, left := group.inflight[0], group.inflight[1..], Left(group.inflight);
    ghost var ready := group.ready;
    assert group.inflight == [sess] + rest;
    PollStep(sess.upcoming);
    log' := PollFront(group, log);
    assert Left(rest) == left[1..];
    assert left[0].1 != 1 ==> Left(rest + [sess]) == left[1..] + [(sess, left[0].1 - 1)];
    TurnConserves(left, Left(group.inflight), ready, group.ready, log, log');
    NeedSame(rest);
    NeedAppend(rest, sess);
  }

  /** The loop of `do_reduce`: it polls round-robin until every session's immediate completion has been seen. */
  method PollAll(group: Group, ghost log: seq<Event>) returns (ghost log': seq<Event>)
    requires Distinct(group.inflight) && forall s | s in group.inflight :: Completes(s.upcoming)
    modifies group, group.inflight
    ensures group.inflight == []
    ensures multiset(group.ready) == multiset(old(group.ready)) + multiset(old(group.inflight))
    ensures forall s | s in old(group.inflight) :: Collected(s)
    ensures group.ready == old(group.ready + Order(Left(group.inflight)))
    ensures log' == log + Gots(old(Order(Left(group.inflight))))
  {
    log' := log;
    while |group.inflight| != 0
      invariant multiset(group.ready) + multiset(group.inflight) == multiset(old(group.ready)) + multiset(old(group.inflight))
      invariant Distinct(group.inflight) && forall s | s in group.inflight :: s in old(group.inflight)
      invariant forall s | s in old(group.inflight) :: if s in group.inflight then StillInflight(s) else Collected(s)
      invariant group.ready + Order(Left(group.inflight)) == old(group.ready + Order(Left(group.inflight)))
      invariant log' + Gots(Order(Left(group.inflight))) == log + Gots(old(Order(Left(group.inflight))))
      decreases Need(group.inflight)
    {
      assert group.inflight[0] in old(group.inflight);
      log' := PollNext(group, log');
    }
    AllDone(group.ready, log', Left(group.inflight));
  }

  /**
   Collects every session of the group; nothing is lost or repeated. The sessions become ready in the order
   of the polls they need, those that need as many in the order of the queue.
   */
  method DoReduce(group: Group, ghost log: seq<Event>) returns (ghost order: seq<nat>, ghost log': seq<Event>)
    requires Distinct(group.inflight) && forall s | s in group.inflight :: Completes(s.upcoming)
    modifies group, group.inflight
    ensures group.inflight == []
    ensures old(group.ready) <= group.ready
    ensures multiset(group.ready) == multiset(old(group.ready)) + multiset(old(group.inflight))
    ensures forall s | s in old(group.inflight) :: Collected(s)
    ensures |order| == |old(group.inflight)| && InOrder(old(Needs(group.inflight)), order)
    ensures group.ready == old(group.ready) + Pick(old(group.inflight), order)
    ensures log' == log + Gots(Pick(old(group.inflight), order))
  {
    order := OrderIsSorted(Left(group.inflight), group.inflight, Needs(group.inflight));
    log' := PollAll(group, log);
    assert group.ready[..|old(group.ready)|] == old(group.ready);
  }

  /** Sends one control message to every ready session and puts it back in flight, in order. */
  method Broadcast(group: Group, ghost log: seq<Event>) returns (ghost log': seq<Event>)
    requires Distinct(group.ready)
    modifies group, group.ready
    ensures log' == log + Sents(old(group.ready))
    ensures group.ready == []
    ensures group.inflight == old(group.inflight) + old(group.ready)
    ensures forall s | s in old(group.ready) ::
              s.ctrlsSent == old(s.ctrlsSent) + 1 && s.recvsPosted == old(s.recvsPosted) && s.upcoming == old(s.upcoming)
  {
    log' := log;
    ghost var all := group.ready;
    ghost var done := 0;
    while |group.ready| != 0
      invariant done <= |all| && group.ready == all[done..]
      invariant group.inflight == old(group.inflight) + all[..done] && log' == log + Sents(all)[..done]
      invariant forall k | 0 <= k < done :: all[k].ctrlsSent == old(all[k].ctrlsSent) + 1
      invariant forall k | done <= k < |all| :: all[k].ctrlsSent == old(all[k].ctrlsSent)
      invariant forall s | s in all :: s.recvsPosted == old(s.recvsPosted) && s.upcoming == old(s.upcoming)
      decreases |group.ready|
    {
      var sess := group.ready[0];
      assert sess == all[done] && Sents(all)[done] == Sent(sess);
      log' := sess.PushCtrl(log');
      group.inflight := group.inflight + [sess];
      group.ready := group.ready[1..];
      done := done + 1;
    }
  }

  /** Separate group objects, and `members` lists sessions of which each occurs once, in one group. */
  ghost predicate Separate(groups: seq<Group>, members: seq<seq<Session>>) {
    && |members| == |groups|
    && (forall i, j | 0 <= i < j < |groups| :: groups[i] != groups[j])
    && (forall i, j, s | 0 <= i < |groups| && 0 <= j < |groups| && i != j && s in members[i] :: s !in members[j])
    && (forall i | 0 <= i < |groups| :: Distinct(members[i]))
  }

  /** In one round a session gives up its polls to the first immediate completion, gets one receive and one control message. */
  twostate predicate Served(s: Session)
    reads s
  {
    && s.recvsPosted == old(s.recvsPosted) + 1 && s.ctrlsSent == old(s.ctrlsSent) + 1
    && s.upcoming == After(old(s.upcoming))
  }

  /** A session that was collected before and has since been sent its control message. */
  twostate predicate Released(s: Session)
    reads s
  {
    && s.recvsPosted == old(s.recvsPosted) && s.ctrlsSent == old(s.ctrlsSent) + 1 && s.upcoming == old(s.upcoming)
  }

  /** The log has been continued with collections only. */
  ghost predicate AllGot(log: seq<Event>, log': seq<Event>) {
    log <= log' && forall k | |log| <= k < |log'| :: log'[k].Got?
  }

  /** The log has been continued with sends only. */
  ghost predicate AllSent(log: seq<Event>, log': seq<Event>) {
    log <= log' && forall k | |log| <= k < |log'| :: log'[k].Sent?
  }

  lemma LogMore(log: seq<Event>, log': seq<Event>, order: seq<Session>)
    ensures AllGot(log, log') ==> AllGot(log, log' + Gots(order))
    ensures AllSent(log, log') ==> AllSent(log, log' + Sents(order))
  {
  }

  /** `do_reduce` on a group all of whose sessions are in flight. */
  method CollectGroup(group: Group, ghost members: seq<Session>, ghost start: seq<Event>, ghost log: seq<Event>)
    returns (ghost log': seq<Event>)
    requires group.inflight == members && group.ready == [] && AllGot(start, log)
    requires Distinct(members) && forall s | s in members :: Completes(s.upcoming)
    modifies group, members
    ensures group.inflight == [] && multiset(group.ready) == multiset(members) && AllGot(start, log')
    ensures forall s | s in members :: Collected(s)
  {
    ghost var order;
    order, log' := DoReduce(group, log);
    LogMore(start, log, Pick(members, order));
  }

  /** `broadcast` on a group all of whose sessions are ready. */
  method ReleaseGroup(group: Group, ghost members: seq<Session>, ghost start: seq<Event>, ghost log: seq<Event>)
    returns (ghost log': seq<Event>)
    requires group.inflight == [] && multiset(group.ready) == multiset(members) && Distinct(members) && AllSent(start, log)
    modifies group, group.ready
    ensures group.ready == [] && multiset(group.inflight) == multiset(members) && AllSent(start, log')
    ensures forall s | s in members :: Released(s)
  {
    SamePermutation(members, group.ready);
    LogMore(start, log, group.ready);
    log' := Broadcast(group, log);
  }

  /** The first half of the tree's round: one group after the other is collected completely. */
  method CollectAll(groups: seq<Group>, ghost members: seq<seq<Session>>, ghost sessions: set<Session>, ghost log: seq<Event>)
    returns (ghost log': seq<Event>)
    requires Separate(groups, members)
    requires forall i | 0 <= i < |groups| :: groups[i].inflight == members[i] && groups[i].ready == []
    requires forall i, s | 0 <= i < |groups| && s in members[i] :: s in sessions && Completes(s.upcoming)
    modifies groups, sessions
    ensures forall i | 0 <= i < |groups| :: groups[i].inflight == [] && multiset(groups[i].ready) == multiset(members[i])
    ensures forall i, s | 0 <= i < |groups| && s in members[i] :: Collected(s)
    ensures AllGot(log, log')
  {
    log' := log;
    for index := 0 to |groups|
      invariant forall i | 0 <= i < index :: groups[i].inflight == [] && multiset(groups[i].ready) == multiset(members[i])
      invariant forall i | index <= i < |groups| :: groups[i].inflight == members[i] && groups[i].ready == []
      invariant forall i, s | 0 <= i < index && s in members[i] :: Collected(s)
      invariant forall i, s | index <= i < |groups| && s in members[i] :: unchanged(s)
      invariant AllGot(log, log')
    {
      log' := CollectGroup(groups[index], members[index], log, log');
    }
  }

  /** The second half: the groups are released from the last to the first. */
  method ReleaseAll(groups: seq<Group>, ghost members: seq<seq<Session>>, ghost sessions: set<Session>, ghost log: seq<Event>)
    returns (ghost log': seq<Event>)
    requires Separate(groups, members)
    requires forall i | 0 <= i < |groups| :: groups[i].inflight == [] && multiset(groups[i].ready) == multiset(members[i])
    requires forall i, s | 0 <= i < |groups| && s in members[i] :: s in sessions
    modifies groups, sessions
    ensures forall i | 0 <= i < |groups| :: groups[i].ready == [] && multiset(groups[i].inflight) == multiset(members[i])
    ensures forall i, s | 0 <= i < |groups| && s in members[i] :: Released(s)
    ensures AllSent(log, log')
  {
    log' := log;
    var index := |groups|;
    while index > 0
      invariant 0 <= index <= |groups| && AllSent(log, log')
      invariant forall i | 0 <= i < index :: groups[i].inflight == [] && multiset(groups[i].ready) == multiset(members[i])
      invariant forall i | index <= i < |groups| :: groups[i].ready == [] && multiset(groups[i].inflight) == multiset(members[i])
      invariant forall i, s | 0 <= i < index && s in members[i] :: unchanged(s)
      invariant forall i, s | index <= i < |groups| && s in members[i] :: Released(s)
    {
      index := index - 1;
      SamePermutation(members[index], groups[index].ready);
      log' := ReleaseGroup(groups[index], members[index], log, log');
    }
  }

  /**
   One round of the tree server: all queues are refilled, and the log shows that nothing is sent to any
   session before every group is collected; `collected` is the log at that moment.
   */
  method TreeRound(groups: seq<Group>, ghost members: seq<seq<Session>>, ghost sessions: set<Session>, ghost log: seq<Event>)
    returns (ghost collected: seq<Event>, ghost log': seq<Event>)
    requires Separate(groups, members)
    requires forall i | 0 <= i < |groups| :: groups[i].inflight == members[i] && groups[i].ready == []
    requires forall i, s | 0 <= i < |groups| && s in members[i] :: s in sessions && Completes(s.upcoming)
    modifies groups, sessions
    ensures forall i | 0 <= i < |groups| :: groups[i].ready == [] && multiset(groups[i].inflight) == multiset(members[i])
    ensures forall i, s | 0 <= i < |groups| && s in members[i] :: Served(s)
    ensures AllGot(log, collected) && AllSent(collected, log')
  {
    collected := CollectAll(groups, members, sessions, log);
    label after:
    forall i, s | 0 <= i < |groups| && s in members[i]
      ensures s.recvsPosted == old(s.recvsPosted) + 1 && s.ctrlsSent == old(s.ctrlsSent) && s.upcoming == After(old(s.upcoming))
    {
      assert Collected(s);
    }
    log' := ReleaseAll(groups, members, sessions, collected);
    forall i, s | 0 <= i < |groups| && s in members[i] ensures Served(s) {
      assert Released@after(s);
    }
  }

  lemma SamePermutation(a: seq<Session>, b: seq<Session>)
    requires Distinct(a) && multiset(a) == multiset(b)
    ensures Distinct(b) && forall s :: s in a <==> s in b
  {
    forall s ensures s in a <==> s in b {
      assert s in a <==> s in multiset(a);
    }
    forall i, j | 0 <= i < j < |b| ensures b[i] != b[j] {
      if b[i] == b[j] {
        assert b == b[..i] + [b[i]] + b[i + 1..j] + [b[j]] + b[j + 1..];
        assert multiset(b)[b[i]] >= 2;
        AtMostOnce(a, b[i]);
      }
    }
  }

  lemma {:induction false} AtMostOnce(a: seq<Session>, s: Session)
    requires Distinct(a)
    ensures multiset(a)[s] <= 1
  {
    if a != [] {
      assert a == [a[0]] + a[1..];
      AtMostOnce(a[1..], s);
    }
  }
}
