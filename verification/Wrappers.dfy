/** The result shapes the other modules share. */
module Wrappers {

  datatype Option<+T> = None | Some(value: T)

  /** `Fatal` stands for a logged fatal error, a thrown exception or `exit`: the call does not return. */
  datatype Result<+T> = Ok(value: T) | Fatal

  /** A call that may wait: it has returned, or it is still spinning or sleeping and has changed nothing. */
  datatype Call<+T> = Returned(value: T) | Blocked

  /** One step of a first-in first-out queue: nothing, one more at the back, or one less at the front. */
  ghost predicate Fifo<T(!new)>(before: seq<T>, after: seq<T>) {
    after == before || (exists x :: after == before + [x]) || (before != [] && after == before[1..])
  }
}
