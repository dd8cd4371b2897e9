/**
 The service object. Blocks of memory are numbered, and a task names its blocks by number, as the pipeline
 machine does; every call is a run of steps of that machine.
 */
module SummationService {
  import opened ReduceSum
  import opened SpscQueue
  import opened SummationPaths
  import opened SummationPipeline
  import opened Wrappers

  class Service {
    const taskQueue: SpscRing<Task>
    const finQueue: SpscRing<Task>
    const blocks: seq<array<real>>
    /** The task the worker has summed and not yet delivered. */
    var hand: Option<Task>
    ghost const start: Memory
    ghost var subs: seq<Submission>

    ghost function Mem(): Memory
      reads blocks
    {
      map b: nat | b < |blocks| :: blocks[b][..]
    }

    /** The machine's state between two calls. */
    ghost function View(): Pipeline
      reads this, taskQueue, taskQueue.slots, finQueue, finQueue.slots, blocks
    {
      match hand
      case None => Pipeline(taskQueue.View(), finQueue.View(), Mem(), Fetching, subs)
      case Some(t) => Pipeline(taskQueue.View(), Knocking(finQueue.View(), t), Mem(), Delivering(t), subs)
    }

    ghost predicate Separate() {
      && taskQueue != finQueue && taskQueue.slots != finQueue.slots
      && forall i, j | 0 <= i < j < |blocks| :: blocks[i] != blocks[j]
    }

    /** The state is one the machine reaches. */
    ghost predicate Valid()
      reads this, taskQueue, taskQueue.slots, finQueue, finQueue.slots, blocks
    {
      && Separate() && taskQueue.Valid() && finQueue.Valid()
      && taskQueue.capacity == finQueue.capacity == QUEUE_CAPACITY
      && Known(start, View())
    }

    ghost function Waiting(): seq<Task>
      requires Valid()
      reads this, taskQueue, taskQueue.slots, finQueue, finQueue.slots, blocks
    {
      taskQueue.Elements()
    }

    ghost function Finished(): seq<Task>
      requires Valid()
      reads this, taskQueue, taskQueue.slots, finQueue, finQueue.slots, blocks
    {
      finQueue.Elements()
    }

    constructor (blocks: seq<array<real>>)
      requires forall i, j | 0 <= i < j < |blocks| :: blocks[i] != blocks[j]
      ensures Valid() && fresh(taskQueue) && fresh(taskQueue.slots) && fresh(finQueue) && fresh(finQueue.slots)
      ensures this.blocks == blocks && Waiting() == [] && Finished() == [] && hand == None && subs == []
    {
      taskQueue := new SpscRing<Task>(QUEUE_CAPACITY);
      finQueue := new SpscRing<Task>(QUEUE_CAPACITY);
      this.blocks, hand, subs := blocks, None, [];
      start := map b: nat | b < |blocks| :: blocks[b][..];
      new;
      assert Mem() == start;
      assert View() == InitPipeline(QUEUE_CAPACITY, start);
      KnownInit(start);
    }

    /** What a submission asks of the user: the blocks exist and no unsynchronized task uses them against this one. */
    ghost predicate MaySubmit(t: Task)
      reads this, taskQueue, taskQueue.slots, finQueue, finQueue.slots, blocks
    {
      CanAct(View(), Submit(t))
    }

    ghost predicate MayFill(b: Block, contents: seq<real>)
      reads this, taskQueue, taskQueue.slots, finQueue, finQueue.slots, blocks
    {
      CanAct(View(), UserWrite(b, contents))
    }

    /** The user fills a block that no unsynchronized task uses. */
    method Fill(b: Block, contents: seq<real>)
      requires Valid() && b < |blocks| && |contents| == blocks[b].Length && MayFill(b, contents)
      modifies blocks[b]
      ensures Valid() && View() == old(View()).(mem := old(Mem())[b := contents])
    {
      ghost var p := View();
      FillCall(start, p, b, contents);
      forall i | 0 <= i < |contents| {
        blocks[b][i] := contents[i];
      }
      assert blocks[b][..] == contents;
      forall i: nat | i < |blocks| && i != b ensures blocks[i][..] == p.mem[i] {
        assert blocks[i] != blocks[b];
      }
      assert Mem() == p.mem[b := contents];
    }

    /** The user's `push`, which spins while the input ring is full. */
    method Enqueue(t: Task) returns (r: Call<()>)
      requires Separate() && taskQueue.Valid()
      modifies taskQueue, taskQueue.slots
      ensures taskQueue.Valid() && finQueue.View() == old(finQueue.View()) && Mem() == old(Mem())
      ensures r.Returned? <==> |old(taskQueue.Elements())| < taskQueue.capacity - 1
      ensures r.Returned? ==> taskQueue.Elements() == old(taskQueue.Elements()) + [t]
      ensures taskQueue.View() == if r.Returned? then EmplaceAlone(old(taskQueue.View()), t) else old(taskQueue.View())
    {
      r := taskQueue.Emplace(t);
    }

    method SubmittedComputeTask(aggWidth: int, lengthInByte: nat, data: seq<Block>) returns (r: Call<int>)
      requires Valid() && MaySubmit(Task(aggWidth, lengthInByte, data))
      modifies this`subs, taskQueue, taskQueue.slots
      ensures Valid()
      ensures r == if |old(Waiting())| < QUEUE_CAPACITY - 1 then Returned(0) else Blocked
      ensures r.Blocked? ==> View() == old(View())
      ensures r.Returned? ==> Waiting() == old(Waiting()) + [Task(aggWidth, lengthInByte, data)]
      ensures r.Returned? ==> subs == old(subs) + [Submission(Task(aggWidth, lengthInByte, data), Mem())]
      ensures Finished() == old(Finished())
    {
      ghost var p := View();
      var t := Task(aggWidth, lengthInByte, data);
      var pushed := Enqueue(t);
      if pushed.Blocked? {
        assert View() == p;
        return Blocked;
      }
      KnownQueues(start, p);
      SubmitCall(start, p, t);
      subs := subs + [Submission(t, p.mem)];
      return Returned(0);
    }

    /** When the call returns, the oldest task not yet synchronized is taken, and it is summed in memory. */
    method SyncComputeTask(token: int) returns (r: Call<()>)
      requires Valid()
      modifies finQueue, finQueue.slots
      ensures Valid()
      ensures r.Returned? <==> old(Finished()) != []
      ensures r.Blocked? ==> View() == old(View())
      ensures r.Returned? ==> TookSummed(|old(finQueue.popped)|) && Finished() == old(Finished())[1..]
      ensures Waiting() == old(Waiting())
    {
      ghost var p := View();
      var popped := finQueue.BlockingPop();
      if popped.Blocked? {
        return Blocked;
      }
      KnownQueues(start, p);
      SyncCall(start, p);
      if hand.Some? {
        PopWhileKnocking(old(finQueue.View()), hand.value);
      }
      return Returned(());
    }

    /** The `k`-th task submitted is the last one taken, and its blocks are summed. */
    ghost predicate TookSummed(k: nat)
      reads this, finQueue, blocks
    {
      k < |subs| && |finQueue.popped| == k + 1 && finQueue.popped[k] == Live(subs[k].task) && Summed(Mem(), subs[k])
    }

    /** `front` of the output ring. */
    method Look() returns (found: bool)
      requires Valid()
      modifies finQueue`seenPushes
      ensures Valid()
      ensures found <==> Finished() != []
      ensures Finished() == old(Finished()) && Waiting() == old(Waiting())
    {
      ghost var p := View();
      var front := finQueue.Front();
      KnownQueues(start, p);
      PeekCall(start, p);
      if hand.Some? {
        FrontWhileKnocking(old(finQueue.View()), hand.value);
      }
      found := front.Some?;
    }

    /** `pop` of the output ring. */
    method Take()
      requires Valid() && Finished() != []
      modifies finQueue, finQueue.slots
      ensures Valid() && TookSummed(|old(finQueue.popped)|)
      ensures Finished() == old(Finished())[1..] && Waiting() == old(Waiting())
    {
      ghost var p := View();
      finQueue.Pop();
      KnownQueues(start, p);
      SyncCall(start, p);
      if hand.Some? {
        PopWhileKnocking(old(finQueue.View()), hand.value);
      }
    }

    method PeekComputeTask(token: int) returns (finished: bool)
      requires Valid()
      modifies finQueue, finQueue.slots
      ensures Valid()
      ensures finished <==> old(Finished()) != []
      ensures finished ==> TookSummed(|old(finQueue.popped)|)
      ensures Finished() == if finished then old(Finished())[1..] else []
      ensures Waiting() == old(Waiting())
    {
      finished := Look();
      if finished {
        Take();
      }
    }

    /** The pointers a task holds; one that is no block of this memory is never dereferenced. */
    method Pointers(t: Task) returns (src: seq<array<real>>)
      ensures |src| == |t.data|
      ensures forall j | 0 <= j < |src| :: if t.data[j] < |blocks| then src[j] == blocks[t.data[j]] else fresh(src[j])
    {
      var nowhere := new real[0];
      src := seq(|t.data|, j requires 0 <= j < |t.data| => if t.data[j] < |blocks| then blocks[t.data[j]] else nowhere);
    }

    /** `reduce_sum` on the blocks a task names. */
    method SumBlocks(t: Task)
      requires Separate() && Fits(Mem(), t)
      modifies blocks
      ensures LoopDone(old(Mem()), Mem(), t)
    {
      var src := Pointers(t);
      ghost var mem, rows := Mem(), if Supported(t.width) then Rows(src, t.width) else [];
      assert Supported(t.width) ==> rows == Operands(mem, t);
      Reduce(src, t.width, Count(t));
      if Supported(t.width) {
        forall i: nat | i < |Mem()[t.data[0]]| ensures ElementDone(mem, Mem(), t, i) {
          assert Mem()[t.data[0]][i] == src[0][i];
        }
      }
    }

    /** The worker's `blocking_pop`, which spins while the input ring is empty. */
    method Dequeue() returns (r: Call<Task>)
      requires Separate() && taskQueue.Valid()
      modifies taskQueue, taskQueue.slots
      ensures taskQueue.Valid() && finQueue.View() == old(finQueue.View()) && Mem() == old(Mem())
      ensures r == if old(taskQueue.Elements()) == [] then Blocked else Returned(old(taskQueue.Elements())[0])
      ensures r.Returned? ==> taskQueue.Elements() == old(taskQueue.Elements())[1..]
      ensures taskQueue.View() == if r.Returned? then PopAlone(old(taskQueue.View())) else old(taskQueue.View())
    {
      r := taskQueue.BlockingPop();
    }

    /** The worker's `blocking_pop` and `reduce_sum`. */
    method FetchAndSum() returns (r: Call<()>)
      requires Valid() && hand == None
      modifies this`hand, taskQueue, taskQueue.slots, blocks
      ensures Valid() && Finished() == old(Finished())
      ensures r.Returned? <==> old(Waiting()) != []
      ensures r.Blocked? ==> View() == old(View()) && Mem() == old(Mem()) && hand == None
      ensures r.Returned? ==> Waiting() == old(Waiting())[1..] && hand == Some(old(Waiting())[0])
      ensures r.Returned? ==> Fits(old(Mem()), hand.value) && LoopDone(old(Mem()), Mem(), hand.value)
    {
      ghost var p := View();
      var got := Dequeue();
      if got.Blocked? {
        assert View() == p;
        return Blocked;
      }
      var t := got.value;
      KnownQueues(start, p);
      FetchCall(start, p);
      ghost var q := p.(inQ := PopAlone(p.inQ), worker := Reducing(t, {}));
      FetchedFits(start, q);
      SumBlocks(t);
      LoopCall(start, q, t, Mem());
      hand := Some(t);
      return Returned(());
    }

    /** The worker's `push`, which spins while the output ring is full. */
    method Deliver() returns (r: Call<()>)
      requires Valid() && hand.Some?
      modifies this`hand, finQueue, finQueue.slots
      ensures Valid() && Waiting() == old(Waiting()) && Mem() == old(Mem())
      ensures r.Returned? <==> |old(Finished())| < QUEUE_CAPACITY - 1
      ensures r.Blocked? ==> View() == old(View())
      ensures r.Returned? ==> hand == None && Finished() == old(Finished()) + [old(hand).value]
    {
      ghost var p, q := View(), finQueue.View();
      var t := hand.value;
      var pushed := finQueue.Emplace(t);
      if pushed.Blocked? {
        return Blocked;
      }
      DeliverCall(start, p, q, t);
      hand := None;
      return Returned(());
    }

    /** One turn of the worker's loop, or what is left of one that waited for room; it may have to wait at either end. */
    method WorkerTurn() returns (r: Call<()>)
      requires Valid()
      modifies this`hand, taskQueue, taskQueue.slots, finQueue, finQueue.slots, blocks
      ensures Valid()
      ensures r.Returned? <==> (old(hand).Some? || old(Waiting()) != []) && |old(Finished())| < QUEUE_CAPACITY - 1
      ensures r.Returned? ==> hand == None && old(Hand(View())) + old(Waiting()) != []
      ensures r.Returned? ==> Finished() == old(Finished()) + [(old(Hand(View())) + old(Waiting()))[0]]
      ensures if old(hand).Some? || old(Waiting()) == [] then Mem() == old(Mem())
              else Fits(old(Mem()), old(Waiting())[0]) && LoopDone(old(Mem()), Mem(), old(Waiting())[0])
      ensures Finished() + Hand(View()) + Waiting() == old(Finished()) + old(Hand(View())) + old(Waiting())
    {
      if hand.None? {
        var fetched := FetchAndSum();
        if fetched.Blocked? {
          return Blocked;
        }
      }
      r := Deliver();
    }
  }
}
