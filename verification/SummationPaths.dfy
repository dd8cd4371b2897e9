/** Uninterrupted stretches of the summation pipeline: what one call of the user, or one turn of the worker, adds up to. */
module SummationPaths {
  import opened Arith
  import opened ReduceSum
  import opened SpscQueue
  import opened SummationPipeline

  ghost predicate Leads(p: Pipeline, acts: seq<Act>, p': Pipeline)
    decreases |acts|
  {
    if acts == [] then p' == p else CanAct(p, acts[0]) && Leads(Do(p, acts[0]), acts[1..], p')
  }

  /** Some steps lead from one state to the other. */
  ghost predicate Reaches(p: Pipeline, p': Pipeline) {
    exists acts :: Leads(p, acts, p')
  }

  lemma {:induction false} LeadsOn(p: Pipeline, acts: seq<Act>, p': Pipeline, act: Act)
    requires Leads(p, acts, p') && CanAct(p', act)
    ensures Leads(p, acts + [act], Do(p', act))
    decreases |acts|
  {
    if acts == [] {
      assert ([] + [act])[1..] == [];
    } else {
      assert (acts + [act])[1..] == acts[1..] + [act];
      LeadsOn(Do(p, acts[0]), acts[1..], p', act);
    }
  }

  lemma {:induction false} LeadsInv(p: Pipeline, acts: seq<Act>, p': Pipeline)
    requires PipelineInv(p) && Leads(p, acts, p')
    ensures PipelineInv(p')
    decreases |acts|
  {
    if acts != [] {
      PipelineInvStep(p, acts[0]);
      LeadsInv(Do(p, acts[0]), acts[1..], p');
    }
  }

  lemma ReachSelf(p: Pipeline)
    ensures Reaches(p, p)
  {
    assert Leads(p, [], p);
  }

  lemma ReachOn(p: Pipeline, p': Pipeline, act: Act)
    requires Reaches(p, p') && CanAct(p', act)
    ensures Reaches(p, Do(p', act))
  {
    var acts :| Leads(p, acts, p');
    LeadsOn(p, acts, p', act);
  }

  lemma ReachInv(p: Pipeline, p': Pipeline)
    requires Reaches(p, p') && PipelineInv(p)
    ensures PipelineInv(p')
  {
    var acts :| Leads(p, acts, p');
    LeadsInv(p, acts, p');
  }

  /** `push` into the input ring while it has room. */
  lemma SubmitPath(o: Pipeline, p: Pipeline, t: Task) returns (p': Pipeline)
    requires Reaches(o, p) && PipelineInv(p) && CanAct(p, Submit(t)) && |Contents(p.inQ)| < p.inQ.capacity - 1
    ensures Reaches(o, p')
    ensures p' == p.(inQ := EmplaceAlone(p.inQ, t), subs := p.subs + [Submission(t, p.mem)])
  {
    var q := p.inQ;
    EmplaceAloneKeepsInv(q, t);
    ReachOn(o, p, Submit(t));
    p' := Do(p, Submit(t));
    RoomTest(q, |q.popped|);
    ReachOn(o, p', SubmitStep(LoadTail(|q.popped|)));
    p' := Do(p', SubmitStep(LoadTail(|q.popped|)));
    ReachOn(o, p', SubmitStep(Construct));
    p' := Do(p', SubmitStep(Construct));
    ReachOn(o, p', SubmitStep(PublishHead));
    p' := Do(p', SubmitStep(PublishHead));
  }

  /** `blocking_pop` of the output ring while it holds something. */
  lemma SyncPath(o: Pipeline, p: Pipeline) returns (p': Pipeline)
    requires Reaches(o, p) && PipelineInv(p) && p.outQ.consumer.Resting? && Contents(p.outQ) != []
    ensures Reaches(o, p') && p' == p.(outQ := PopAlone(p.outQ))
    ensures Contents(PopAlone(p.outQ)) == Contents(p.outQ)[1..]
    ensures var k := |p.outQ.popped|;
            k < |p.subs| && Contents(p.outQ)[0] == p.subs[k].task && Summed(p.mem, p.subs[k])
  {
    var q := p.outQ;
    PopAloneKeepsInv(q);
    DataTest(q, |q.pushed|);
    p' := SyncOn(o, p, StartFront(true));
    p' := SyncOn(o, p', LoadHead(|q.pushed|));
    p' := SyncOn(o, p', MoveOut);
    p' := SyncOn(o, p', Destroy);
    p' := SyncOn(o, p', PublishTail);
    var k := |q.popped|;
    assert Unsynced(p, k);
    AgreesMeansSummed(p.mem, p.subs[k]);
  }

  lemma SyncOn(o: Pipeline, p: Pipeline, a: Action<Task>) returns (p': Pipeline)
    requires Reaches(o, p) && ConsumerAction(a) && Enabled(p.outQ, a)
    ensures Reaches(o, p') && p' == p.(outQ := Step(p.outQ, a))
  {
    ReachOn(o, p, SyncStep(a));
    p' := Do(p, SyncStep(a));
  }

  /** `front` of the output ring, whose pointer is dropped again. */
  lemma PeekPath(o: Pipeline, p: Pipeline) returns (p': Pipeline)
    requires Reaches(o, p) && PipelineInv(p) && p.outQ.consumer.Resting?
    ensures Reaches(o, p') && p' == p.(outQ := FrontAlone(p.outQ).(consumer := Resting))
  {
    var q := p.outQ;
    FrontAloneKeepsInv(q);
    p' := SyncOn(o, p, StartFront(false));
    p' := SyncOn(o, p', LoadHead(|q.pushed|));
    if Contents(q) != [] {
      p' := SyncOn(o, p', Forget);
    }
  }

  /** The worker's `blocking_pop` while the input ring holds something. */
  lemma FetchPath(o: Pipeline, p: Pipeline) returns (p': Pipeline)
    requires Reaches(o, p) && PipelineInv(p) && p.worker.Fetching? && p.inQ.consumer.Resting? && Contents(p.inQ) != []
    ensures Reaches(o, p') && p' == p.(inQ := PopAlone(p.inQ), worker := Reducing(Contents(p.inQ)[0], {}))
  {
    var q := p.inQ;
    FrontAloneKeepsInv(q);
    PopAloneKeepsInv(q);
    DataTest(q, |q.pushed|);
    p' := FetchOn(o, p, StartFront(true));
    p' := FetchOn(o, p', LoadHead(|q.pushed|));
    p' := FetchOn(o, p', MoveOut);
    p' := FetchOn(o, p', Destroy);
    ReachOn(o, p', FetchStep(PublishTail));
    p' := Do(p', FetchStep(PublishTail));
  }

  lemma FetchOn(o: Pipeline, p: Pipeline, a: Action<Task>) returns (p': Pipeline)
    requires Reaches(o, p) && p.worker.Fetching? && BlockingPopAction(p.inQ, a) && Enabled(p.inQ, a) && !a.PublishTail?
    ensures Reaches(o, p') && p' == p.(inQ := Step(p.inQ, a))
  {
    ReachOn(o, p, FetchStep(a));
    p' := Do(p, FetchStep(a));
  }

  /** Only block `d` has another contents. */
  ghost predicate OthersSame(mem: Memory, mem': Memory, d: Block) {
    d in mem && mem'.Keys == mem.Keys && forall b | b in mem && b != d :: mem'[b] == mem[b]
  }

  /** The worker's loop after its first `n` elements. */
  ghost predicate LoopState(o: Pipeline, p: Pipeline, p': Pipeline, t: Task, n: nat)
    requires t.data != []
  {
    && Reaches(o, p') && PipelineInv(p') && OthersSame(p.mem, p'.mem, t.data[0])
    && p' == p.(mem := p'.mem, worker := Reducing(t, Below(n)))
  }

  lemma ElementOn(o: Pipeline, p: Pipeline, q: Pipeline, t: Task, n: nat) returns (p': Pipeline)
    requires t.data != [] && LoopState(o, p, q, t, n) && Supported(t.width) && n < Count(t)
    ensures LoopState(o, p, p', t, n + 1)
  {
    assert Unsynced(q, |q.outQ.pushed|);
    ReachOn(o, q, Element(n));
    PipelineInvStep(q, Element(n));
    p' := Do(q, Element(n));
    assert Below(n + 1) == Below(n) + {n};
  }

  /** The elements of the loop, in ascending order. */
  lemma {:induction false} ElementsPath(o: Pipeline, p: Pipeline, t: Task, n: nat) returns (p': Pipeline)
    requires Reaches(o, p) && PipelineInv(p) && p.worker == Reducing(t, {}) && Supported(t.width) && n <= Count(t)
    ensures t.data != [] && LoopState(o, p, p', t, n)
  {
    FirstBlockExists(p, t);
    if n == 0 {
      p' := p;
      assert Below(0) == {};
    } else {
      p' := ElementsPath(o, p, t, n - 1);
      p' := ElementOn(o, p, p', t, n - 1);
    }
  }

  lemma FirstBlockExists(p: Pipeline, t: Task)
    requires PipelineInv(p) && p.worker.Reducing? && p.worker.task == t && Supported(t.width)
    ensures Fits(p.mem, t) && t.data[0] in p.mem
  {
    assert Unsynced(p, |p.outQ.pushed|);
  }

  /** What the whole loop makes of block 0, in terms of the memory before it. */
  lemma LoopSums(p: Pipeline, p': Pipeline, t: Task, i: nat)
    requires PipelineInv(p) && PipelineInv(p') && p.worker == Reducing(t, {}) && Supported(t.width)
    requires p' == p.(mem := p'.mem, worker := Reducing(t, Work(t)))
    ensures Fits(p.mem, t) && t.data[0] in p.mem && t.data[0] in p'.mem && |p'.mem[t.data[0]]| == |p.mem[t.data[0]]|
    ensures i < Count(t) ==> p'.mem[t.data[0]][i] == Total(p.mem, t, i)
    ensures Count(t) <= i < |p.mem[t.data[0]]| ==> p'.mem[t.data[0]][i] == p.mem[t.data[0]][i]
  {
    var k := |p.outQ.pushed|;
    var sub := p.subs[k];
    assert Unsynced(p, k) && Unsynced(p', k);
    assert t.data[0] in Footprint(t);
    assert Matches(p.mem, sub, {}, t.data[0]) && Matches(p'.mem, sub, Work(t), t.data[0]);
    if i < Count(t) {
      TotalUnchanged(p.mem, sub, {}, i);
    }
  }

  /** The worker leaves its loop and finds the output ring full or not. */
  lemma DeliverStarts(o: Pipeline, p: Pipeline, t: Task) returns (p': Pipeline)
    requires Reaches(o, p) && PipelineInv(p) && p.worker == Reducing(t, Work(t))
    ensures Reaches(o, p') && p' == p.(outQ := Knocking(p.outQ, t), worker := Delivering(t))
  {
    ReachOn(o, p, StartDelivery);
    p' := Do(p, StartDelivery);
  }

  /** `push` called, room not yet found. */
  function Knocking(q: Queue<Task>, t: Task): Queue<Task> {
    q.(producer := Checking(t, Next(q.head, q.capacity), true))
  }

  /** Taking from the ring and waiting for room in it do not get in each other's way. */
  lemma PopWhileKnocking(q: Queue<Task>, t: Task)
    requires Inv(q) && q.consumer.Resting? && Contents(q) != [] && Inv(Knocking(q, t))
    ensures Contents(Knocking(q, t)) == Contents(q) && PopAlone(Knocking(q, t)) == Knocking(PopAlone(q), t)
  {
    PopAloneKeepsInv(q);
    PopAloneKeepsInv(Knocking(q, t));
  }

  lemma FrontWhileKnocking(q: Queue<Task>, t: Task)
    requires Inv(q) && q.consumer.Resting? && Inv(Knocking(q, t))
    ensures FrontAlone(Knocking(q, t)).(consumer := Resting) == Knocking(FrontAlone(q).(consumer := Resting), t)
  {
    FrontAloneKeepsInv(q);
    FrontAloneKeepsInv(Knocking(q, t));
  }

  lemma DeliverPath(o: Pipeline, p: Pipeline, q: Queue<Task>, t: Task) returns (p': Pipeline)
    requires Reaches(o, p) && PipelineInv(p) && p.worker == Delivering(t) && p.outQ == Knocking(q, t)
    requires Inv(q) && q.producer.Idle? && |Contents(q)| < q.capacity - 1
    ensures Reaches(o, p') && p' == p.(outQ := EmplaceAlone(q, t), worker := Fetching)
  {
    EmplaceAloneKeepsInv(q, t);
    RoomTest(q, |q.popped|);
    ReachOn(o, p, DeliverStep(LoadTail(|q.popped|)));
    p' := Do(p, DeliverStep(LoadTail(|q.popped|)));
    ReachOn(o, p', DeliverStep(Construct));
    p' := Do(p', DeliverStep(Construct));
    ReachOn(o, p', DeliverStep(PublishHead));
    p' := Do(p', DeliverStep(PublishHead));
  }

  // The same for a state reached from the start of a service.

  ghost predicate Known(start: Memory, p: Pipeline) {
    Reaches(InitPipeline(QUEUE_CAPACITY, start), p)
  }

  /** What holds in every state of the machine holds there. */
  lemma KnownInv(start: Memory, p: Pipeline)
    requires Known(start, p)
    ensures PipelineInv(p)
  {
    InitPipelineInv(QUEUE_CAPACITY, start);
    ReachInv(InitPipeline(QUEUE_CAPACITY, start), p);
  }

  lemma KnownQueues(start: Memory, p: Pipeline)
    requires Known(start, p)
    ensures Inv(p.inQ) && Inv(p.outQ)
  {
    KnownInv(start, p);
  }

  lemma KnownInit(start: Memory)
    ensures Known(start, InitPipeline(QUEUE_CAPACITY, start))
  {
    ReachSelf(InitPipeline(QUEUE_CAPACITY, start));
  }

  lemma FillCall(start: Memory, p: Pipeline, b: Block, v: seq<real>)
    requires Known(start, p) && CanAct(p, UserWrite(b, v))
    ensures Known(start, p.(mem := p.mem[b := v]))
  {
    KnownInv(start, p);
    ReachOn(InitPipeline(QUEUE_CAPACITY, start), p, UserWrite(b, v));
  }

  lemma SubmitCall(start: Memory, p: Pipeline, t: Task)
    requires Known(start, p) && Inv(p.inQ) && CanAct(p, Submit(t)) && |Contents(p.inQ)| < p.inQ.capacity - 1
    ensures Known(start, p.(inQ := EmplaceAlone(p.inQ, t), subs := p.subs + [Submission(t, p.mem)]))
  {
    KnownInv(start, p);
    var p' := SubmitPath(InitPipeline(QUEUE_CAPACITY, start), p, t);
  }

  lemma SyncCall(start: Memory, p: Pipeline)
    requires Known(start, p) && Inv(p.outQ) && p.outQ.consumer.Resting? && Contents(p.outQ) != []
    ensures Known(start, p.(outQ := PopAlone(p.outQ)))
    ensures var k := |p.outQ.popped|;
            && k < |p.subs| && Contents(p.outQ)[0] == p.subs[k].task && Summed(p.mem, p.subs[k])
            && PopAlone(p.outQ).popped == p.outQ.popped + [Live(p.subs[k].task)]
  {
    KnownInv(start, p);
    var p' := SyncPath(InitPipeline(QUEUE_CAPACITY, start), p);
    FrontAloneKeepsInv(p.outQ);
    PopAloneKeepsInv(p.outQ);
  }

  lemma PeekCall(start: Memory, p: Pipeline)
    requires Known(start, p) && Inv(p.outQ) && p.outQ.consumer.Resting?
    ensures Known(start, p.(outQ := FrontAlone(p.outQ).(consumer := Resting)))
  {
    KnownInv(start, p);
    var p' := PeekPath(InitPipeline(QUEUE_CAPACITY, start), p);
  }

  lemma FetchCall(start: Memory, p: Pipeline)
    requires Known(start, p) && Inv(p.inQ) && p.worker.Fetching? && p.inQ.consumer.Resting? && Contents(p.inQ) != []
    ensures Known(start, p.(inQ := PopAlone(p.inQ), worker := Reducing(Contents(p.inQ)[0], {})))
  {
    KnownInv(start, p);
    var p' := FetchPath(InitPipeline(QUEUE_CAPACITY, start), p);
  }

  lemma DeliverCall(start: Memory, p: Pipeline, q: Queue<Task>, t: Task)
    requires Known(start, p) && p.worker == Delivering(t) && p.outQ == Knocking(q, t)
    requires Inv(q) && q.producer.Idle? && |Contents(q)| < q.capacity - 1
    ensures Known(start, p.(outQ := EmplaceAlone(q, t), worker := Fetching))
  {
    KnownInv(start, p);
    var p' := DeliverPath(InitPipeline(QUEUE_CAPACITY, start), p, q, t);
  }

  /** `mem'` is `mem` with the elements of block 0 summed. */
  ghost predicate LoopDone(mem: Memory, mem': Memory, t: Task)
    requires Fits(mem, t)
  {
    if Supported(t.width) then
      && OthersSame(mem, mem', t.data[0]) && |mem'[t.data[0]]| == |mem[t.data[0]]|
      && forall i: nat | i < |mem'[t.data[0]]| :: ElementDone(mem, mem', t, i)
    else mem' == mem
  }

  ghost predicate ElementDone(mem: Memory, mem': Memory, t: Task, i: nat)
    requires Fits(mem, t) && Supported(t.width) && t.data[0] in mem && t.data[0] in mem'
    requires i < |mem'[t.data[0]]| == |mem[t.data[0]]|
  {
    mem'[t.data[0]][i] == if i < Count(t) then Total(mem, t, i) else mem[t.data[0]][i]
  }

  lemma LoopMemory(p: Pipeline, q: Pipeline, t: Task, mem': Memory)
    requires PipelineInv(p) && PipelineInv(q) && p.worker == Reducing(t, {}) && Supported(t.width)
    requires q == p.(mem := q.mem, worker := Reducing(t, Work(t))) && Fits(p.mem, t)
    requires OthersSame(p.mem, q.mem, t.data[0]) && LoopDone(p.mem, mem', t)
    ensures q.mem == mem'
  {
    var d := t.data[0];
    LoopSums(p, q, t, 0);
    forall i: nat | i < |mem'[d]| ensures q.mem[d][i] == mem'[d][i] {
      LoopSums(p, q, t, i);
      assert ElementDone(p.mem, mem', t, i);
    }
    assert q.mem[d] == mem'[d];
  }

  lemma LoopEnds(o: Pipeline, p: Pipeline, t: Task, mem': Memory)
    requires Reaches(o, p) && PipelineInv(p) && p.worker == Reducing(t, {}) && Fits(p.mem, t) && LoopDone(p.mem, mem', t)
    ensures Reaches(o, p.(mem := mem', worker := Reducing(t, Work(t))))
    ensures PipelineInv(p.(mem := mem', worker := Reducing(t, Work(t))))
  {
    if Supported(t.width) {
      var q := ElementsPath(o, p, t, Count(t));
      LoopMemory(p, q, t, mem');
    } else {
      assert p == p.(mem := mem', worker := Reducing(t, Work(t)));
    }
  }

  /** The sums of the whole loop make the memory the machine has after it; then the worker turns to the output ring. */
  lemma LoopCall(start: Memory, p: Pipeline, t: Task, mem': Memory)
    requires Known(start, p) && p.worker == Reducing(t, {}) && Fits(p.mem, t) && LoopDone(p.mem, mem', t)
    ensures Known(start, p.(mem := mem', outQ := Knocking(p.outQ, t), worker := Delivering(t)))
  {
    KnownInv(start, p);
    var o := InitPipeline(QUEUE_CAPACITY, start);
    LoopEnds(o, p, t, mem');
    var p' := DeliverStarts(o, p.(mem := mem', worker := Reducing(t, Work(t))), t);
  }

  lemma FetchedFits(start: Memory, p: Pipeline)
    requires Known(start, p) && p.worker.Reducing?
    ensures Fits(p.mem, p.worker.task)
  {
    KnownInv(start, p);
    assert Unsynced(p, |p.outQ.pushed|);
  }
}
