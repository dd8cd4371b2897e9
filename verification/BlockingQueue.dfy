/** The mutex-protected queue; each method is one atomic step, since it holds the lock from start to end. */
module BlockingQueue {
  import opened Wrappers

  class Queue<T> {
    var queue: seq<T>

    constructor ()
      ensures queue == []
    {
      queue := [];
    }

    method Push(t: T)
      modifies this
      ensures queue == old(queue) + [t]
    {
      queue := queue + [t];
    }

    /** Waits on the condition variable while the queue is empty. */
    method Pop() returns (r: Call<T>)
      modifies this
      ensures r == if old(queue) == [] then Blocked else Returned(old(queue)[0])
      ensures queue == if old(queue) == [] then [] else old(queue)[1..]
    {
      if |queue| == 0 {
        return Blocked;
      }
      r := Returned(queue[0]);
      queue := queue[1..];
    }

    method TryPop() returns (r: Option<T>)
      modifies this
      ensures r == if old(queue) == [] then None else Some(old(queue)[0])
      ensures queue == if old(queue) == [] then [] else old(queue)[1..]
    {
      if |queue| == 0 {
        return None;
      }
      r := Some(queue[0]);
      queue := queue[1..];
    }
  }
}
