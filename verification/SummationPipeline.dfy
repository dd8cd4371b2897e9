/**
 The summation service as two threads: the user submits tasks into one ring and synchronizes on
 another, a worker moves tasks from the first to the second and sums their blocks in between. Both
 rings are the interleaved machines of SpscQueue, and the parallel loop of a sum takes its elements in any order.
 */
module SummationPipeline {
  import opened Arith
  import opened SpscQueue
  import opened ReduceSum

  type Block = nat
  type Memory = map<Block, seq<real>>

  datatype Task = Task(width: int, bytes: nat, data: seq<Block>)

  /** A task together with the memory at the time of its submission. */
  datatype Submission = Submission(task: Task, before: Memory)

  datatype Worker =
    | Fetching
    | Reducing(task: Task, done: set<nat>)
    | Delivering(task: Task)

  datatype Pipeline = Pipeline(inQ: Queue<Task>, outQ: Queue<Task>, mem: Memory, worker: Worker, subs: seq<Submission>)

  datatype Act =
    | Submit(task: Task)
    | SubmitStep(a: Action<Task>)
    | SyncStep(a: Action<Task>)
    | UserWrite(block: Block, contents: seq<real>)
    | FetchStep(a: Action<Task>)
    | Element(i: nat)
    | StartDelivery
    | DeliverStep(a: Action<Task>)

  function Count(t: Task): nat {
    t.bytes / 4
  }

  predicate Fits(mem: Memory, t: Task) {
    && |t.data| >= MAX_NUM_BLOCK
    && (Supported(t.width) ==> forall j | 0 <= j < t.width :: t.data[j] in mem && Count(t) <= |mem[t.data[j]]|)
  }

  /** The blocks a task reads or writes. */
  function Footprint(t: Task): set<Block> {
    if Supported(t.width) && t.width <= |t.data| then set j | 0 <= j < t.width :: t.data[j] else {}
  }

  function Writes(t: Task): set<Block> {
    if Supported(t.width) && t.width <= |t.data| then {t.data[0]} else {}
  }

  /** Neither task writes a block the other one uses. */
  predicate Disjoint(t: Task, u: Task) {
    Writes(t) !! Footprint(u) && Writes(u) !! Footprint(t)
  }

  function Operands(mem: Memory, t: Task): seq<seq<real>>
    requires Fits(mem, t) && Supported(t.width)
  {
    seq(t.width, j requires 0 <= j < t.width => mem[t.data[j]])
  }

  function Total(mem: Memory, t: Task, i: nat): real
    requires Fits(mem, t) && Supported(t.width) && i < Count(t)
  {
    RowSum(Operands(mem, t), i)
  }

  /** The elements the worker's loop covers; none for a width it does not know. */
  function Work(t: Task): set<nat> {
    if Supported(t.width) then Below(Count(t)) else {}
  }

  predicate ProducerAction(a: Action<Task>) {
    a.LoadTail? || a.Construct? || a.PublishHead?
  }

  predicate ConsumerAction(a: Action<Task>) {
    a.StartFront? || a.LoadHead? || a.Forget? || a.MoveOut? || a.Destroy? || a.PublishTail?
  }

  /** `blocking_pop`: spin on `front`, move the element out, then pop. */
  predicate BlockingPopAction(q: Queue<Task>, a: Action<Task>) {
    match a
    case StartFront(spin) => spin
    case LoadHead(_) => true
    case MoveOut => true
    case Destroy => q.consumer.Taken?
    case PublishTail => true
    case _ => false
  }

  ghost predicate Unsynced(p: Pipeline, k: nat) {
    |p.outQ.popped| <= k < |p.subs|
  }

  /**
   The user's side of the bargain is in `Submit` and `UserWrite`: a task's blocks exist, they are disjoint
   from those of every task not yet synchronized, and the user leaves them alone until then.
   */
  ghost predicate CanAct(p: Pipeline, act: Act) {
    match act
    case Submit(t) =>
      && p.inQ.producer.Idle? && p.inQ.capacity > 0 && Fits(p.mem, t)
      && forall k: nat | Unsynced(p, k) :: Disjoint(p.subs[k].task, t)
    case SubmitStep(a) => ProducerAction(a) && Enabled(p.inQ, a)
    case SyncStep(a) => ConsumerAction(a) && Enabled(p.outQ, a)
    case UserWrite(b, _) =>
      forall k: nat | Unsynced(p, k) :: b !in Footprint(p.subs[k].task)
    case FetchStep(a) => p.worker.Fetching? && BlockingPopAction(p.inQ, a) && Enabled(p.inQ, a)
    case Element(i) =>
      p.worker.Reducing? && i in Work(p.worker.task) && i !in p.worker.done && Fits(p.mem, p.worker.task)
    case StartDelivery =>
      p.worker.Reducing? && p.worker.done == Work(p.worker.task) && p.outQ.producer.Idle? && p.outQ.capacity > 0
    case DeliverStep(a) => p.worker.Delivering? && ProducerAction(a) && Enabled(p.outQ, a)
  }

  ghost function Do(p: Pipeline, act: Act): Pipeline
    requires CanAct(p, act)
  {
    match act
    case Submit(t) =>
      p.(inQ := Step(p.inQ, StartEmplace(t, true)), subs := p.subs + [Submission(t, p.mem)])
    case SubmitStep(a) => p.(inQ := Step(p.inQ, a))
    case SyncStep(a) => p.(outQ := Step(p.outQ, a))
    case UserWrite(b, v) => p.(mem := p.mem[b := v])
    case FetchStep(a) =>
      p.(inQ := Step(p.inQ, a),
         worker := if a.PublishTail? && p.inQ.consumer.out.Live? then Reducing(p.inQ.consumer.out.value, {}) else p.worker)
    case Element(i) =>
      var t := p.worker.task;
      var dst := t.data[0];
      p.(mem := p.mem[dst := p.mem[dst][i := Total(p.mem, t, i)]], worker := Reducing(t, p.worker.done + {i}))
    case StartDelivery =>
      p.(outQ := Step(p.outQ, StartEmplace(p.worker.task, true)), worker := Delivering(p.worker.task))
    case DeliverStep(a) =>
      p.(outQ := Step(p.outQ, a), worker := if a.PublishHead? then Fetching else p.worker)
  }

  /**
   What a submission asks of the user, block by block: the blocks exist and are long enough, and the first
   block of either task is none of the other one's, for every task not yet synchronized. Blocks that are
   only read may be shared.
   */
  lemma MaySubmitIs(p: Pipeline, t: Task)
    requires p.inQ.producer.Idle? && p.inQ.capacity > 0 && |t.data| >= 20
    requires forall k: nat | Unsynced(p, k) :: |p.subs[k].task.data| >= 20
    ensures CanAct(p, Submit(t))
            <==> (2 <= t.width <= 20 ==> forall j | 0 <= j < t.width :: t.data[j] in p.mem && t.bytes / 4 <= |p.mem[t.data[j]]|)
                 && forall k: nat, i: nat, j: nat | Unsynced(p, k) && MeetAt(t, p.subs[k].task, i, j) :: t.data[i] != p.subs[k].task.data[j]
  {
    forall k: nat | Unsynced(p, k)
      ensures Disjoint(p.subs[k].task, t)
              <==> forall i: nat, j: nat | MeetAt(t, p.subs[k].task, i, j) :: t.data[i] != p.subs[k].task.data[j]
    {
      DisjointIs(t, p.subs[k].task);
    }
  }

  /** Two blocks of two tasks of which one is written. */
  predicate MeetAt(t: Task, u: Task, i: nat, j: nat) {
    2 <= t.width <= 20 && 2 <= u.width <= 20 && i < t.width && j < u.width && (i == 0 || j == 0)
  }

  lemma DisjointIs(t: Task, u: Task)
    requires |t.data| >= 20 && |u.data| >= 20
    ensures Disjoint(u, t) <==> forall i: nat, j: nat | MeetAt(t, u, i, j) :: t.data[i] != u.data[j]
  {
    if forall i: nat, j: nat | MeetAt(t, u, i, j) :: t.data[i] != u.data[j] {
      forall b | b in Writes(u) ensures b !in Footprint(t) {
        if b in Footprint(t) {
          var i :| 0 <= i < t.width && t.data[i] == b;
          assert MeetAt(t, u, i, 0);
        }
      }
      forall b | b in Writes(t) ensures b !in Footprint(u) {
        if b in Footprint(u) {
          var j :| 0 <= j < u.width && u.data[j] == b;
          assert MeetAt(t, u, 0, j);
        }
      }
    } else {
      var i: nat, j: nat :| MeetAt(t, u, i, j) && t.data[i] == u.data[j];
      assert t.data[i] in Footprint(t) && u.data[j] in Footprint(u);
      assert t.data[0] in Writes(t) && u.data[0] in Writes(u);
    }
  }

  /** The service's constructor makes both rings with 1024 slots; the proofs hold for any capacity it could choose. */
  const QUEUE_CAPACITY := 1024

  function InitPipeline(capacity: nat, mem: Memory): Pipeline {
    Pipeline(Init(capacity), Init(capacity), mem, Fetching, [])
  }

  /** How far the `k`-th submitted task has been summed. */
  function Progress(p: Pipeline, k: nat): set<nat>
    requires k < |p.subs|
  {
    if k < |p.outQ.pushed| then Work(p.subs[k].task)
    else if k == |p.outQ.pushed| && p.worker.Reducing? then p.worker.done
    else if k == |p.outQ.pushed| && p.worker.Delivering? then Work(p.subs[k].task)
    else {}
  }

  /** Memory holds the task's blocks as submitted, except that the elements in `done` of block 0 are summed. */
  ghost predicate Agrees(mem: Memory, sub: Submission, done: set<nat>) {
    var t := sub.task;
    && Fits(sub.before, t) && Fits(mem, t)
    && (Supported(t.width) ==> forall b | b in Footprint(t) :: Matches(mem, sub, done, b))
  }

  ghost predicate Matches(mem: Memory, sub: Submission, done: set<nat>, b: Block)
    requires Fits(sub.before, sub.task) && Supported(sub.task.width)
  {
    && b in mem && b in sub.before && |mem[b]| == |sub.before[b]|
    && forall i: nat | i < |mem[b]| ::
         mem[b][i] == if b == sub.task.data[0] && i in done && i < Count(sub.task)
                      then Total(sub.before, sub.task, i) else sub.before[b][i]
  }

  ghost predicate QueuesInv(p: Pipeline) {
    && SpscQueue.Inv(p.inQ) && SpscQueue.Inv(p.outQ)
    && p.inQ.capacity == p.outQ.capacity
    && |p.subs| == |p.inQ.pushed| + (if p.inQ.producer.Idle? then 0 else 1)
    && (forall k | 0 <= k < |p.inQ.pushed| :: p.inQ.pushed[k] == p.subs[k].task)
    && (!p.inQ.producer.Idle? ==> p.inQ.producer.arg == p.subs[|p.inQ.pushed|].task)
    && (p.inQ.producer.Checking? ==> p.inQ.producer.spin)
    && |p.outQ.pushed| <= |p.inQ.popped|
    && (forall k | 0 <= k < |p.outQ.pushed| :: p.outQ.pushed[k] == p.subs[k].task)
  }

  ghost predicate WorkerInv(p: Pipeline)
    requires QueuesInv(p)
  {
    match p.worker
    case Fetching =>
      && |p.inQ.popped| == |p.outQ.pushed| && p.outQ.producer.Idle?
      && (p.inQ.consumer.Looking? ==> p.inQ.consumer.spin)
    case Reducing(t, done) =>
      && |p.inQ.popped| == |p.outQ.pushed| + 1 && p.outQ.producer.Idle? && p.inQ.consumer.Resting?
      && t == p.subs[|p.outQ.pushed|].task && done <= Work(t)
    case Delivering(t) =>
      && |p.inQ.popped| == |p.outQ.pushed| + 1 && !p.outQ.producer.Idle? && p.inQ.consumer.Resting?
      && t == p.subs[|p.outQ.pushed|].task && p.outQ.producer.arg == t
      && (p.outQ.producer.Checking? ==> p.outQ.producer.spin)
  }

  ghost predicate MemInv(p: Pipeline) {
    && (forall k: nat | Unsynced(p, k) :: Agrees(p.mem, p.subs[k], Progress(p, k)))
    && (forall k: nat, l: nat | Unsynced(p, k) && Unsynced(p, l) && k != l ::
          Disjoint(p.subs[k].task, p.subs[l].task))
  }

  ghost predicate PipelineInv(p: Pipeline) {
    QueuesInv(p) && WorkerInv(p) && MemInv(p)
  }

  lemma AgreesFrame(mem: Memory, mem': Memory, sub: Submission, done: set<nat>)
    requires Agrees(mem, sub, done)
    requires forall b | b in Footprint(sub.task) :: b in mem' && mem'[b] == mem[b]
    ensures Agrees(mem', sub, done)
  {
    var t := sub.task;
    if Supported(t.width) {
      forall j | 0 <= j < t.width ensures t.data[j] in mem' && Count(t) <= |mem'[t.data[j]]| {
        assert t.data[j] in Footprint(t);
      }
      forall b | b in Footprint(t) ensures Matches(mem', sub, done, b) {
        assert Matches(mem, sub, done, b);
      }
    }
  }

  lemma AgreesAtSubmission(mem: Memory, t: Task)
    requires Fits(mem, t)
    ensures Agrees(mem, Submission(t, mem), {})
  {
  }

  /** An element not summed yet still has all its operands, so the sum the worker computes now is the original one. */
  lemma TotalUnchanged(mem: Memory, sub: Submission, done: set<nat>, i: nat)
    requires Agrees(mem, sub, done) && Supported(sub.task.width) && i < Count(sub.task) && i !in done
    ensures Total(mem, sub.task, i) == Total(sub.before, sub.task, i)
  {
    var t := sub.task;
    forall j | 0 <= j < t.width ensures Operands(mem, t)[j][i] == Operands(sub.before, t)[j][i] {
      assert t.data[j] in Footprint(t);
      assert Matches(mem, sub, done, t.data[j]);
    }
    RowSumCongruent(Operands(mem, t), Operands(sub.before, t), i);
  }

  lemma {:induction false} RowSumCongruent(a: seq<seq<real>>, b: seq<seq<real>>, i: nat)
    requires |a| == |b|
    requires forall j | 0 <= j < |a| :: i < |a[j]| && i < |b[j]| && a[j][i] == b[j][i]
    ensures RowSum(a, i) == RowSum(b, i)
  {
    if a != [] {
      RowSumCongruent(a[..|a| - 1], b[..|b| - 1], i);
    }
  }

  lemma ElementAdvances(mem: Memory, sub: Submission, done: set<nat>, i: nat)
    requires Agrees(mem, sub, done) && i in Work(sub.task) && i !in done
    ensures Fits(mem, sub.task)
    ensures var dst := sub.task.data[0];
            Agrees(mem[dst := mem[dst][i := Total(mem, sub.task, i)]], sub, done + {i})
  {
    var t := sub.task;
    var dst := t.data[0];
    assert dst in Footprint(t);
    assert Matches(mem, sub, done, dst);
    TotalUnchanged(mem, sub, done, i);
    var mem' := mem[dst := mem[dst][i := Total(mem, t, i)]];
    forall b | b in Footprint(t) ensures Matches(mem', sub, done + {i}, b) {
      assert Matches(mem, sub, done, b);
    }
  }

  lemma QueuesInvStep(p: Pipeline, act: Act)
    requires PipelineInv(p) && CanAct(p, act)
    ensures QueuesInv(Do(p, act))
  {
    match act
    case Submit(t) => InvStep(p.inQ, StartEmplace(t, true));
    case SubmitStep(a) => QueuesInvUser(p, act);
    case SyncStep(a) => QueuesInvUser(p, act);
    case UserWrite(_, _) =>
    case FetchStep(a) => StepRefinesFifo(p.inQ, a);
    case Element(_) =>
    case StartDelivery => InvStep(p.outQ, StartEmplace(p.worker.task, true));
    case DeliverStep(a) => StepRefinesFifo(p.outQ, a);
  }

  lemma QueuesInvUser(p: Pipeline, act: Act)
    requires PipelineInv(p) && CanAct(p, act) && (act.SubmitStep? || act.SyncStep?)
    ensures QueuesInv(Do(p, act))
  {
    if act.SubmitStep? {
      StepRefinesFifo(p.inQ, act.a);
    } else {
      StepRefinesFifo(p.outQ, act.a);
    }
  }

  lemma WorkerInvFetch(p: Pipeline, a: Action<Task>)
    requires PipelineInv(p) && CanAct(p, FetchStep(a)) && QueuesInv(Do(p, FetchStep(a)))
    ensures WorkerInv(Do(p, FetchStep(a)))
  {
    assert ConsumerInv(p.inQ);
    if a.PublishTail? {
      var k := |p.inQ.popped|;
      assert p.inQ.consumer.out == Live(p.inQ.pushed[k]);
      assert p.inQ.pushed[k] == p.subs[k].task;
    }
  }

  lemma WorkerInvDeliver(p: Pipeline, a: Action<Task>)
    requires PipelineInv(p) && CanAct(p, DeliverStep(a)) && QueuesInv(Do(p, DeliverStep(a)))
    ensures WorkerInv(Do(p, DeliverStep(a)))
  {
  }

  lemma WorkerInvUser(p: Pipeline, act: Act)
    requires PipelineInv(p) && CanAct(p, act) && QueuesInv(Do(p, act))
    requires act.Submit? || act.SubmitStep? || act.SyncStep? || act.UserWrite?
    ensures WorkerInv(Do(p, act))
  {
    if act.SubmitStep? {
      WorkerInvSubmit(p, act.a);
    } else if act.SyncStep? {
      WorkerInvSync(p, act.a);
    }
  }

  lemma WorkerInvSubmit(p: Pipeline, a: Action<Task>)
    requires PipelineInv(p) && CanAct(p, SubmitStep(a)) && QueuesInv(Do(p, SubmitStep(a)))
    ensures WorkerInv(Do(p, SubmitStep(a)))
  {
  }

  lemma WorkerInvSync(p: Pipeline, a: Action<Task>)
    requires PipelineInv(p) && CanAct(p, SyncStep(a)) && QueuesInv(Do(p, SyncStep(a)))
    ensures WorkerInv(Do(p, SyncStep(a)))
  {
  }

  lemma WorkerInvStep(p: Pipeline, act: Act)
    requires PipelineInv(p) && CanAct(p, act) && QueuesInv(Do(p, act))
    ensures WorkerInv(Do(p, act))
  {
    match act
    case FetchStep(a) => WorkerInvFetch(p, a);
    case Element(_) =>
    case StartDelivery =>
    case DeliverStep(a) => WorkerInvDeliver(p, a);
    case _ => WorkerInvUser(p, act);
  }

  /** Steps that only move tasks along leave every task's progress and memory as they were. */
  lemma MemInvMove(p: Pipeline, act: Act)
    requires PipelineInv(p) && CanAct(p, act) && QueuesInv(Do(p, act))
    requires act.SubmitStep? || act.SyncStep? || act.FetchStep? || act.StartDelivery? || act.DeliverStep?
    ensures MemInv(Do(p, act))
  {
    var p' := Do(p, act);
    forall k: nat | Unsynced(p', k) ensures Unsynced(p, k) && Progress(p', k) == Progress(p, k) {
      match act
      case SubmitStep(a) => ProgressOfSubmit(p, a, k);
      case SyncStep(a) => ProgressOfSync(p, a, k);
      case FetchStep(_) => ProgressOfFetch(p, act, k);
      case StartDelivery => ProgressOfStart(p, act, k);
      case DeliverStep(_) => ProgressOfDeliver(p, act, k);
    }
  }

  lemma ProgressOfSubmit(p: Pipeline, a: Action<Task>, k: nat)
    requires CanAct(p, SubmitStep(a)) && Unsynced(Do(p, SubmitStep(a)), k)
    ensures Unsynced(p, k) && Progress(Do(p, SubmitStep(a)), k) == Progress(p, k)
  {
  }

  lemma ProgressOfSync(p: Pipeline, a: Action<Task>, k: nat)
    requires CanAct(p, SyncStep(a)) && Unsynced(Do(p, SyncStep(a)), k)
    ensures Unsynced(p, k) && Progress(Do(p, SyncStep(a)), k) == Progress(p, k)
  {
  }

  lemma ProgressOfFetch(p: Pipeline, act: Act, k: nat)
    requires PipelineInv(p) && CanAct(p, act) && QueuesInv(Do(p, act)) && Unsynced(Do(p, act), k) && act.FetchStep?
    ensures Unsynced(p, k) && Progress(Do(p, act), k) == Progress(p, k)
  {
  }

  lemma ProgressOfStart(p: Pipeline, act: Act, k: nat)
    requires PipelineInv(p) && CanAct(p, act) && QueuesInv(Do(p, act)) && Unsynced(Do(p, act), k) && act.StartDelivery?
    ensures Unsynced(p, k) && Progress(Do(p, act), k) == Progress(p, k)
  {
  }

  lemma ProgressOfDeliver(p: Pipeline, act: Act, k: nat)
    requires PipelineInv(p) && CanAct(p, act) && QueuesInv(Do(p, act)) && Unsynced(Do(p, act), k) && act.DeliverStep?
    ensures Unsynced(p, k) && Progress(Do(p, act), k) == Progress(p, k)
  {
  }

  lemma MemInvSubmit(p: Pipeline, t: Task)
    requires PipelineInv(p) && CanAct(p, Submit(t))
    ensures MemInv(Do(p, Submit(t)))
  {
    var p' := Do(p, Submit(t));
    AgreesAtSubmission(p.mem, t);
    forall k: nat | Unsynced(p', k) ensures Agrees(p'.mem, p'.subs[k], Progress(p', k)) {
      if k < |p.subs| {
        assert Unsynced(p, k) && Progress(p', k) == Progress(p, k);
      }
    }
    forall k: nat, l: nat | Unsynced(p', k) && Unsynced(p', l) && k != l
      ensures Disjoint(p'.subs[k].task, p'.subs[l].task)
    {
      assert k < |p.subs| ==> Unsynced(p, k);
      assert l < |p.subs| ==> Unsynced(p, l);
    }
  }

  lemma MemInvWrite(p: Pipeline, b: Block, v: seq<real>)
    requires PipelineInv(p) && CanAct(p, UserWrite(b, v))
    ensures MemInv(Do(p, UserWrite(b, v)))
  {
    var p' := Do(p, UserWrite(b, v));
    forall k: nat | Unsynced(p', k) ensures Agrees(p'.mem, p'.subs[k], Progress(p', k)) {
      assert Unsynced(p, k);
      AgreesFrame(p.mem, p'.mem, p.subs[k], Progress(p, k));
    }
    forall k: nat, l: nat | Unsynced(p', k) && Unsynced(p', l) && k != l
      ensures Disjoint(p'.subs[k].task, p'.subs[l].task)
    {
      assert Unsynced(p, k) && Unsynced(p, l);
    }
  }

  lemma MemInvElement(p: Pipeline, i: nat)
    requires PipelineInv(p) && CanAct(p, Element(i))
    ensures MemInv(Do(p, Element(i)))
  {
    var p' := Do(p, Element(i));
    var cur := |p.outQ.pushed|;
    assert Unsynced(p, cur);
    ElementAdvances(p.mem, p.subs[cur], p.worker.done, i);
    forall k: nat | Unsynced(p', k) ensures Agrees(p'.mem, p'.subs[k], Progress(p', k)) {
      assert Unsynced(p, k);
      if k != cur {
        assert Disjoint(p.subs[cur].task, p.subs[k].task);
        assert p.subs[cur].task.data[0] in Writes(p.subs[cur].task);
        AgreesFrame(p.mem, p'.mem, p.subs[k], Progress(p, k));
      }
    }
    forall k: nat, l: nat | Unsynced(p', k) && Unsynced(p', l) && k != l
      ensures Disjoint(p'.subs[k].task, p'.subs[l].task)
    {
      assert Unsynced(p, k) && Unsynced(p, l);
    }
  }

  lemma PipelineInvStep(p: Pipeline, act: Act)
    requires PipelineInv(p) && CanAct(p, act)
    ensures PipelineInv(Do(p, act))
  {
    QueuesInvStep(p, act);
    WorkerInvStep(p, act);
    match act
    case Submit(t) => MemInvSubmit(p, t);
    case UserWrite(b, v) => MemInvWrite(p, b, v);
    case Element(i) => MemInvElement(p, i);
    case _ => MemInvMove(p, act);
  }

  ghost predicate IsPipelineRun(capacity: nat, trace: seq<Pipeline>, acts: seq<Act>) {
    && |trace| == |acts| + 1
    && (exists mem :: trace[0] == InitPipeline(capacity, mem))
    && forall i | 0 <= i < |acts| :: CanAct(trace[i], acts[i]) && trace[i + 1] == Do(trace[i], acts[i])
  }

  lemma InitPipelineInv(capacity: nat, mem: Memory)
    requires capacity >= 2
    ensures PipelineInv(InitPipeline(capacity, mem))
  {
    InvInit<Task>(capacity);
  }

  lemma {:induction false} PipelineRunInv(capacity: nat, trace: seq<Pipeline>, acts: seq<Act>, i: nat)
    requires capacity >= 2 && IsPipelineRun(capacity, trace, acts) && i < |trace|
    ensures PipelineInv(trace[i]) && trace[i].inQ.capacity == capacity
  {
    if i == 0 {
      InvInit<Task>(capacity);
    } else {
      PipelineRunInv(capacity, trace, acts, i - 1);
      PipelineInvStep(trace[i - 1], acts[i - 1]);
    }
  }

  /** Block 0 is the elementwise sum of the blocks as submitted; its tail and all other blocks are as submitted. */
  ghost predicate Summed(mem: Memory, sub: Submission) {
    var t := sub.task;
    && Fits(sub.before, t)
    && (Supported(t.width) ==>
          && t.data[0] in mem
          && |mem[t.data[0]]| == |sub.before[t.data[0]]|
          && (forall i: nat | i < Count(t) :: mem[t.data[0]][i] == Total(sub.before, t, i))
          && (forall i: nat | Count(t) <= i < |mem[t.data[0]]| :: mem[t.data[0]][i] == sub.before[t.data[0]][i])
          && (forall j | 0 <= j < t.width && t.data[j] != t.data[0] ::
                t.data[j] in mem && mem[t.data[j]] == sub.before[t.data[j]]))
  }

  lemma AgreesMeansSummed(mem: Memory, sub: Submission)
    requires Agrees(mem, sub, Work(sub.task))
    ensures Summed(mem, sub)
  {
    var t := sub.task;
    if Supported(t.width) {
      assert t.data[0] in Footprint(t);
      assert Matches(mem, sub, Work(t), t.data[0]);
      forall j | 0 <= j < t.width && t.data[j] != t.data[0]
        ensures t.data[j] in mem && mem[t.data[j]] == sub.before[t.data[j]]
      {
        assert t.data[j] in Footprint(t);
        assert Matches(mem, sub, Work(t), t.data[j]);
      }
    }
  }

  /** Two blocks: every whole 4-byte element of the first is the plain sum of the two. */
  ghost predicate PairSummed(mem: Memory, sub: Submission) {
    var t := sub.task;
    t.width == 2 ==>
      && |t.data| >= 2 && t.data[0] in mem && t.data[0] in sub.before && t.data[1] in sub.before
      && forall i: nat | 4 * i + 4 <= t.bytes ::
           && i < |mem[t.data[0]]| && i < |sub.before[t.data[0]]| && i < |sub.before[t.data[1]]|
           && mem[t.data[0]][i] == sub.before[t.data[0]][i] + sub.before[t.data[1]][i]
  }

  lemma SummedPair(mem: Memory, sub: Submission)
    requires Summed(mem, sub)
    ensures PairSummed(mem, sub)
  {
    var t := sub.task;
    if t.width == 2 {
      forall i: nat | 4 * i + 4 <= t.bytes
        ensures i < |mem[t.data[0]]| && i < |sub.before[t.data[0]]| && i < |sub.before[t.data[1]]|
        ensures mem[t.data[0]][i] == sub.before[t.data[0]][i] + sub.before[t.data[1]][i]
      {
        RowSumTwo(Operands(sub.before, t), i);
      }
    }
  }

  /**
   In every interleaving of user, worker and loop iterations, the k-th `sync_compute_task` to return
   gives back the k-th submitted task, and at that moment its blocks hold the finished sum.
   */
  lemma EverySyncIsSummed(capacity: nat, trace: seq<Pipeline>, acts: seq<Act>, i: nat)
    requires capacity >= 2 && IsPipelineRun(capacity, trace, acts) && i < |acts|
    requires acts[i] == SyncStep(PublishTail)
    ensures var k := |trace[i].outQ.popped|;
            && k < |trace[i].subs|
            && trace[i + 1].outQ.popped == trace[i].outQ.popped + [Live(trace[i].subs[k].task)]
            && Summed(trace[i + 1].mem, trace[i].subs[k]) && PairSummed(trace[i + 1].mem, trace[i].subs[k])
  {
    var p := trace[i];
    PipelineRunInv(capacity, trace, acts, i);
    StepRefinesFifo(p.outQ, PublishTail);
    var k := |p.outQ.popped|;
    assert Contents(p.outQ)[0] == p.outQ.pushed[k] == p.subs[k].task;
    assert Unsynced(p, k);
    AgreesMeansSummed(p.mem, p.subs[k]);
    SummedPair(p.mem, p.subs[k]);
  }

  /** The task the worker holds, if any. */
  function Hand(p: Pipeline): seq<Task> {
    match p.worker
    case Fetching => []
    case Reducing(t, _) => [t]
    case Delivering(t) => [t]
  }

  /** Finished, held and waiting tasks are, in this order, exactly the submitted tasks not yet synchronized. */
  lemma TasksAreConserved(p: Pipeline)
    requires PipelineInv(p)
    ensures |p.outQ.popped| <= |p.outQ.pushed| && |p.inQ.popped| <= |p.inQ.pushed|
    ensures |p.inQ.pushed| <= |p.subs|
    ensures Contents(p.outQ) + Hand(p) + Contents(p.inQ)
            == seq(|p.inQ.pushed| - |p.outQ.popped|, k requires 0 <= k < |p.inQ.pushed| - |p.outQ.popped| =>
                     p.subs[|p.outQ.popped| + k].task)
  {
    HandHolds(p);
    InThreeParts(p, Contents(p.outQ), Hand(p), Contents(p.inQ));
  }

  /** The worker holds the task between the last finished and the first waiting one, or none. */
  lemma HandHolds(p: Pipeline)
    requires PipelineInv(p)
    ensures |p.outQ.pushed| + |Hand(p)| == |p.inQ.popped| <= |p.subs|
    ensures forall k | 0 <= k < |Hand(p)| :: Hand(p)[k] == p.subs[|p.outQ.pushed| + k].task
  {
  }

  lemma InThreeParts(p: Pipeline, a: seq<Task>, b: seq<Task>, c: seq<Task>)
    requires |p.outQ.popped| <= |p.outQ.pushed| <= |p.inQ.popped| <= |p.inQ.pushed| <= |p.subs|
    requires |a| == |p.outQ.pushed| - |p.outQ.popped| && |b| == |p.inQ.popped| - |p.outQ.pushed| && |c| == |p.inQ.pushed| - |p.inQ.popped|
    requires forall k | 0 <= k < |a| :: a[k] == p.subs[|p.outQ.popped| + k].task
    requires forall k | 0 <= k < |b| :: b[k] == p.subs[|p.outQ.pushed| + k].task
    requires forall k | 0 <= k < |c| :: c[k] == p.subs[|p.inQ.popped| + k].task
    ensures a + b + c == seq(|p.inQ.pushed| - |p.outQ.popped|, k requires 0 <= k < |p.inQ.pushed| - |p.outQ.popped| =>
                               p.subs[|p.outQ.popped| + k].task)
  {
  }

  /** A submission waits on a full ring while the worker waits on a full ring with a summed task in hand. */
  predicate Jammed(p: Pipeline)
    requires |p.outQ.popped| <= |p.outQ.pushed| && |p.inQ.popped| <= |p.inQ.pushed|
  {
    && |Contents(p.inQ)| == p.inQ.capacity - 1
    && p.worker.Delivering?
    && |Contents(p.outQ)| == p.outQ.capacity - 1
  }

  predicate WorkerAct(act: Act) {
    act.FetchStep? || act.Element? || act.StartDelivery? || act.DeliverStep?
  }

  /** The worker has a step that brings it to another program point. */
  ghost predicate WorkerMoves(p: Pipeline) {
    exists act: Act :: WorkerAct(act) && CanAct(p, act) && Moves(p, act)
  }

  ghost predicate Moves(p: Pipeline, act: Act)
    requires CanAct(p, act)
  {
    var p' := Do(p, act);
    p'.worker != p.worker || p'.inQ.consumer != p.inQ.consumer || p'.outQ.producer != p.outQ.producer
  }

  lemma FetchingMoves(p: Pipeline)
    requires PipelineInv(p) && p.worker.Fetching? && Contents(p.inQ) != []
    ensures WorkerMoves(p)
  {
    InvIsSafe(p.inQ, MoveOut);
    InvIsSafe(p.inQ, Destroy);
    DataTest(p.inQ, |p.inQ.pushed|);
    var a: Action<Task> := match p.inQ.consumer
      case Resting => StartFront(true)
      case Looking(_, _) => LoadHead(|p.inQ.pushed|)
      case Holding(_) => MoveOut
      case Taken(_, _) => Destroy
      case Released(_, _) => PublishTail;
    assert CanAct(p, FetchStep(a)) && Moves(p, FetchStep(a));
  }

  lemma ReducingMoves(p: Pipeline)
    requires PipelineInv(p) && p.worker.Reducing?
    ensures WorkerMoves(p)
  {
    assert Unsynced(p, |p.outQ.pushed|);
    if p.worker.done == Work(p.worker.task) {
      assert CanAct(p, StartDelivery) && Moves(p, StartDelivery);
    } else {
      var i :| i in Work(p.worker.task) && i !in p.worker.done;
      assert CanAct(p, Element(i)) && Moves(p, Element(i));
    }
  }

  lemma DeliveringMoves(p: Pipeline)
    requires PipelineInv(p) && p.worker.Delivering?
    ensures WorkerMoves(p) <==> |Contents(p.outQ)| < p.outQ.capacity - 1
  {
    InvIsSafe(p.outQ, Construct);
    if |Contents(p.outQ)| < p.outQ.capacity - 1 {
      RoomTest(p.outQ, |p.outQ.popped|);
      var a: Action<Task> := match p.outQ.producer
        case Checking(_, _, _) => LoadTail(|p.outQ.popped|)
        case Writing(_, _) => Construct
        case _ => PublishHead;
      assert CanAct(p, DeliverStep(a)) && Moves(p, DeliverStep(a));
    } else {
      forall act: Act | WorkerAct(act) && CanAct(p, act) ensures !Moves(p, act) {
        RoomTest(p.outQ, act.a.pops);
      }
    }
  }

  /**
   The two threads can block each other exactly when both rings are full and the worker holds a summed
   task, which takes 2 * (capacity - 1) + 1 tasks; below that bound a submission has room or the worker moves on.
   */
  lemma BlockedOnlyAtBound(p: Pipeline)
    requires PipelineInv(p)
    ensures var unsynced := |p.inQ.pushed| - |p.outQ.popped|;
            var bound := 2 * (p.inQ.capacity - 1) + 1;
            && unsynced <= bound
            && (Jammed(p) <==> |Contents(p.inQ)| == p.inQ.capacity - 1 && !WorkerMoves(p))
            && (Jammed(p) <==> unsynced == bound && p.worker.Delivering?)
            && (unsynced < bound ==> |Contents(p.inQ)| < p.inQ.capacity - 1 || WorkerMoves(p))
  {
    TasksAreConserved(p);
    match p.worker
    case Fetching =>
      if |Contents(p.inQ)| == p.inQ.capacity - 1 {
        FetchingMoves(p);
      }
    case Reducing(_, _) => ReducingMoves(p);
    case Delivering(_) => DeliveringMoves(p);
  }

  lemma TasksInOrder(p: Pipeline)
    requires PipelineInv(p)
    ensures var unsynced := |p.inQ.pushed| - |p.outQ.popped|;
            && |p.outQ.popped| <= |p.outQ.pushed| && |p.inQ.popped| <= |p.inQ.pushed| <= |p.subs|
            && |Contents(p.outQ)| + |Hand(p)| + |Contents(p.inQ)| == unsynced
            && forall k | 0 <= k < unsynced ::
                 (Contents(p.outQ) + Hand(p) + Contents(p.inQ))[k] == p.subs[|p.outQ.popped| + k].task
  {
    TasksAreConserved(p);
  }

  /** Conservation and the bound in every run. */
  lemma EveryRunConserves(capacity: nat, trace: seq<Pipeline>, acts: seq<Act>, i: nat)
    requires capacity >= 2 && IsPipelineRun(capacity, trace, acts) && i < |trace|
    ensures var p := trace[i];
            var unsynced := |p.inQ.pushed| - |p.outQ.popped|;
            && |p.outQ.popped| <= |p.outQ.pushed| && |p.inQ.popped| <= |p.inQ.pushed| <= |p.subs| <= |p.inQ.pushed| + 1
            && |Contents(p.outQ)| + |Hand(p)| + |Contents(p.inQ)| == unsynced <= 2 * (capacity - 1) + 1
            && (forall k | 0 <= k < unsynced ::
                  (Contents(p.outQ) + Hand(p) + Contents(p.inQ))[k] == p.subs[|p.outQ.popped| + k].task)
            && (Jammed(p) <==> unsynced == 2 * (capacity - 1) + 1 && p.worker.Delivering?)
            && (Jammed(p) <==> |Contents(p.inQ)| == capacity - 1 && !WorkerMoves(p))
  {
    PipelineRunInv(capacity, trace, acts, i);
    TasksInOrder(trace[i]);
    BlockedOnlyAtBound(trace[i]);
  }
}
