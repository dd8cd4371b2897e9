/** In which order a round-robin loop over a queue is done with its members, each of which needs a number of polls. */
module RoundRobin {

  /** Members with the polls they still need. */
  function Work<T>(queue: seq<(T, nat)>): nat {
    if queue == [] then 0 else queue[0].1 + Work(queue[1..])
  }

  lemma {:induction false} WorkAppend<T>(queue: seq<(T, nat)>, x: (T, nat))
    ensures Work(queue + [x]) == Work(queue) + x.1
  {
    if queue == [] {
      assert queue + [x] == [x];
    } else {
      assert (queue + [x])[1..] == queue[1..] + [x];
      WorkAppend(queue[1..], x);
    }
  }

  ghost predicate Positive<T>(queue: seq<(T, nat)>) {
    forall k | 0 <= k < |queue| :: queue[k].1 > 0
  }

  /** Poll the first member: it is done, or it goes to the end and needs one poll less. */
  ghost function Order<T>(queue: seq<(T, nat)>): seq<T>
    requires Positive(queue)
    decreases Work(queue)
  {
    if queue == [] then []
    else if queue[0].1 == 1 then [queue[0].0] + Order(queue[1..])
    else
      WorkAppend(queue[1..], (queue[0].0, queue[0].1 - 1));
      Order(queue[1..] + [(queue[0].0, queue[0].1 - 1)])
  }

  lemma OrderFirst<T>(queue: seq<(T, nat)>, next: seq<(T, nat)>)
    requires queue != [] && Positive(queue) && Positive(next)
    requires next == if queue[0].1 == 1 then queue[1..] else queue[1..] + [(queue[0].0, queue[0].1 - 1)]
    ensures Order(queue) == (if queue[0].1 == 1 then [queue[0].0] else []) + Order(next)
    ensures Work(next) < Work(queue)
  {
    if queue[0].1 != 1 {
      WorkAppend(queue[1..], (queue[0].0, queue[0].1 - 1));
    }
  }

  // By positions in the queue at the start.

  /**
   A pass over the queue: `ahead` are the positions still to be polled in it, `behind` those polled in it
   and not done, `done` those done so far, in order.
   */
  datatype Turn = Turn(pass: nat, ahead: seq<nat>, behind: seq<nat>, done: seq<nat>)

  /** The next pass begins when all have been polled. */
  function Renewed(t: Turn): Turn {
    if t.ahead == [] then Turn(t.pass + 1, t.behind, [], t.done) else t
  }

  function Polled(needs: seq<nat>, t: Turn): Turn
    requires t.ahead != [] && t.ahead[0] < |needs|
  {
    var i := t.ahead[0];
    if needs[i] == t.pass + 1 then Turn(t.pass, t.ahead[1..], t.behind, t.done + [i])
    else Turn(t.pass, t.ahead[1..], t.behind + [i], t.done)
  }

  /** Fewer polls needed, or as many and nearer to the front. */
  predicate Earlier(needs: seq<nat>, i: nat, j: nat)
    requires i < |needs| && j < |needs|
  {
    needs[i] < needs[j] || (needs[i] == needs[j] && i < j)
  }

  /** The positions in the order of the polls needed, those with equal needs in the order of the queue. */
  ghost predicate InOrder(needs: seq<nat>, order: seq<nat>) {
    && (forall k | 0 <= k < |order| :: order[k] < |needs|)
    && forall k, l | 0 <= k < l < |order| :: Earlier(needs, order[k], order[l])
  }

  ghost predicate TurnInv(needs: seq<nat>, t: Turn) {
    && InOrder(needs, t.done) && |t.ahead| + |t.behind| + |t.done| == |needs|
    && (forall k | 0 <= k < |t.ahead| :: t.ahead[k] < |needs| && needs[t.ahead[k]] > t.pass)
    && (forall k | 0 <= k < |t.behind| :: t.behind[k] < |needs| && needs[t.behind[k]] > t.pass + 1)
    && (forall k, l | 0 <= k < l < |t.behind + t.ahead| :: (t.behind + t.ahead)[k] < (t.behind + t.ahead)[l])
    && (forall k | 0 <= k < |t.done| ::
          needs[t.done[k]] <= t.pass || (needs[t.done[k]] == t.pass + 1 && forall l | 0 <= l < |t.ahead| :: t.done[k] < t.ahead[l]))
  }

  lemma PolledKeeps(needs: seq<nat>, t: Turn)
    requires TurnInv(needs, t) && t.ahead != []
    ensures TurnInv(needs, Polled(needs, t))
  {
    var i, u := t.ahead[0], Polled(needs, t);
    assert (t.behind + t.ahead)[|t.behind|] == i;
    forall l | 0 <= l < |t.ahead[1..]| ensures i < t.ahead[1..][l] {
      assert (t.behind + t.ahead)[|t.behind| + 1 + l] == t.ahead[1..][l];
    }
    if needs[i] == t.pass + 1 {
      forall k, l | 0 <= k < l < |u.behind + u.ahead| ensures (u.behind + u.ahead)[k] < (u.behind + u.ahead)[l] {
        assert (u.behind + u.ahead)[l] == (t.behind + t.ahead)[if l < |t.behind| then l else l + 1];
        assert (u.behind + u.ahead)[k] == (t.behind + t.ahead)[if k < |t.behind| then k else k + 1];
      }
    } else {
      assert u.behind + u.ahead == t.behind + t.ahead;
    }
  }

  lemma RenewedKeeps(needs: seq<nat>, t: Turn)
    requires TurnInv(needs, t)
    ensures TurnInv(needs, Renewed(t))
  {
    if t.ahead == [] {
      assert Renewed(t).behind + Renewed(t).ahead == t.behind + t.ahead;
    }
  }

  /** The members at the given positions. */
  function Pick<T>(members: seq<T>, positions: seq<nat>): (picked: seq<T>)
    requires forall k | 0 <= k < |positions| :: positions[k] < |members|
    ensures |picked| == |positions| && forall k | 0 <= k < |picked| :: picked[k] == members[positions[k]]
  {
    seq(|positions|, k requires 0 <= k < |positions| => members[positions[k]])
  }

  /** The members at some positions that have had `used` polls. */
  ghost function Part<T>(members: seq<T>, needs: seq<nat>, positions: seq<nat>, used: nat): (part: seq<(T, nat)>)
    requires |members| == |needs| && forall k | 0 <= k < |positions| :: positions[k] < |needs| && needs[positions[k]] > used
    ensures |part| == |positions|
    ensures forall k | 0 <= k < |part| :: part[k] == (members[positions[k]], needs[positions[k]] - used)
  {
    seq(|positions|, k requires 0 <= k < |positions| => (members[positions[k]], needs[positions[k]] - used))
  }

  /** The queue in the middle of a pass. */
  ghost function Queue<T>(members: seq<T>, needs: seq<nat>, t: Turn): (queue: seq<(T, nat)>)
    requires |members| == |needs| && TurnInv(needs, t)
    ensures Positive(queue) && |queue| == |t.ahead| + |t.behind|
  {
    Part(members, needs, t.ahead, t.pass) + Part(members, needs, t.behind, t.pass + 1)
  }

  lemma QueueRenewed<T>(members: seq<T>, needs: seq<nat>, t: Turn)
    requires |members| == |needs| && TurnInv(needs, t)
    ensures TurnInv(needs, Renewed(t)) && Queue(members, needs, Renewed(t)) == Queue(members, needs, t)
  {
    RenewedKeeps(needs, t);
  }

  lemma PartTail<T>(members: seq<T>, needs: seq<nat>, positions: seq<nat>, used: nat)
    requires |members| == |needs| && forall k | 0 <= k < |positions| :: positions[k] < |needs| && needs[positions[k]] > used
    requires positions != []
    ensures forall k | 0 <= k < |positions[1..]| :: positions[1..][k] < |needs| && needs[positions[1..][k]] > used
    ensures Part(members, needs, positions[1..], used) == Part(members, needs, positions, used)[1..]
  {
    assert forall k | 0 <= k < |positions[1..]| :: positions[1..][k] == positions[k + 1];
  }

  lemma PartAppend<T>(members: seq<T>, needs: seq<nat>, positions: seq<nat>, i: nat, used: nat)
    requires |members| == |needs| && forall k | 0 <= k < |positions| :: positions[k] < |needs| && needs[positions[k]] > used
    requires i < |needs| && needs[i] > used
    ensures forall k | 0 <= k < |positions + [i]| :: (positions + [i])[k] < |needs| && needs[(positions + [i])[k]] > used
    ensures Part(members, needs, positions + [i], used) == Part(members, needs, positions, used) + [(members[i], needs[i] - used)]
  {
  }

  lemma QueuePolled<T>(members: seq<T>, needs: seq<nat>, t: Turn)
    requires |members| == |needs| && TurnInv(needs, t) && t.ahead != []
    ensures TurnInv(needs, Polled(needs, t))
    ensures var q, u := Queue(members, needs, t), Queue(members, needs, Polled(needs, t));
            && q[0] == (members[t.ahead[0]], needs[t.ahead[0]] - t.pass)
            && u == if q[0].1 == 1 then q[1..] else q[1..] + [(q[0].0, q[0].1 - 1)]
  {
    PolledKeeps(needs, t);
    PartTail(members, needs, t.ahead, t.pass);
    if needs[t.ahead[0]] != t.pass + 1 {
      PartAppend(members, needs, t.behind, t.ahead[0], t.pass + 1);
    }
  }

  lemma PickMore<T>(members: seq<T>, done: seq<nat>, i: nat)
    requires (forall k | 0 <= k < |done| :: done[k] < |members|) && i < |members|
    ensures Pick(members, done + [i]) == Pick(members, done) + [members[i]]
  {
  }

  lemma Reassociate<T>(a: seq<T>, b: seq<T>, c: seq<T>)
    ensures a + (b + c) == (a + b) + c
  {
  }

  /** One poll leaves what is done in the end as it was. */
  lemma PollConserves<T>(queue: seq<(T, nat)>, next: seq<(T, nat)>, done: seq<T>, done': seq<T>)
    requires queue != [] && Positive(queue) && Positive(next)
    requires next == if queue[0].1 == 1 then queue[1..] else queue[1..] + [(queue[0].0, queue[0].1 - 1)]
    requires done' == if queue[0].1 == 1 then done + [queue[0].0] else done
    ensures done' + Order(next) == done + Order(queue) && Work(next) < Work(queue)
  {
    OrderFirst(queue, next);
    if queue[0].1 == 1 {
      Reassociate(done, [queue[0].0], Order(next));
    }
  }

  lemma PolledPick<T>(members: seq<T>, needs: seq<nat>, t: Turn)
    requires |members| == |needs| && t.ahead != [] && t.ahead[0] < |needs|
    requires forall k | 0 <= k < |t.done| :: t.done[k] < |needs|
    ensures forall k | 0 <= k < |Polled(needs, t).done| :: Polled(needs, t).done[k] < |needs|
    ensures Pick(members, Polled(needs, t).done)
            == if needs[t.ahead[0]] == t.pass + 1 then Pick(members, t.done) + [members[t.ahead[0]]] else Pick(members, t.done)
  {
    PickMore(members, t.done, t.ahead[0]);
  }

  lemma PolledConserves<T>(members: seq<T>, needs: seq<nat>, t: Turn)
    requires |members| == |needs| && TurnInv(needs, t) && t.ahead != []
    ensures var u := Polled(needs, t);
            && TurnInv(needs, u) && Work(Queue(members, needs, u)) < Work(Queue(members, needs, t))
            && Pick(members, u.done) + Order(Queue(members, needs, u)) == Pick(members, t.done) + Order(Queue(members, needs, t))
  {
    PolledPick(members, needs, t);
    var done, done' := Pick(members, t.done), Pick(members, Polled(needs, t).done);
    QueuePolled(members, needs, t);
    PollConserves(Queue(members, needs, t), Queue(members, needs, Polled(needs, t)), done, done');
  }

  /** What is done already, followed by what the rest of the queue comes to, is in order. */
  lemma {:induction false} TurnOrder<T>(members: seq<T>, needs: seq<nat>, t: Turn) returns (order: seq<nat>)
    requires |members| == |needs| && TurnInv(needs, t)
    ensures InOrder(needs, order) && |order| == |needs|
    ensures Pick(members, t.done) + Order(Queue(members, needs, t)) == Pick(members, order)
    decreases Work(Queue(members, needs, t)), |t.behind|
  {
    if t.ahead != [] {
      PolledConserves(members, needs, t);
      order := TurnOrder(members, needs, Polled(needs, t));
    } else if t.behind != [] {
      QueueRenewed(members, needs, t);
      order := TurnOrder(members, needs, Renewed(t));
    } else {
      assert Queue(members, needs, t) == [] && Pick(members, t.done) + [] == Pick(members, t.done);
      order := t.done;
    }
  }

  function Range(n: nat): (r: seq<nat>)
    ensures |r| == n && forall i | 0 <= i < n :: r[i] == i
  {
    seq(n, i => i)
  }

  /** Round robin is a stable sort by the polls needed. */
  lemma OrderIsSorted<T>(queue: seq<(T, nat)>, members: seq<T>, needs: seq<nat>) returns (order: seq<nat>)
    requires Positive(queue) && |members| == |needs| == |queue|
    requires forall i | 0 <= i < |queue| :: queue[i] == (members[i], needs[i])
    ensures InOrder(needs, order) && |order| == |needs| && Order(queue) == Pick(members, order)
  {
    var t := Turn(0, Range(|queue|), [], []);
    assert [] + Range(|queue|) == Range(|queue|);
    assert TurnInv(needs, t);
    order := TurnOrder(members, needs, t);
    assert Queue(members, needs, t) == queue;
  }
}
