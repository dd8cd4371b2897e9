/** The synchronization thread's variables and loops as an object, between steps of the poll threads. */
module SyncThread {
  import opened MeshBarrier
  import opened Wrappers
  import BQ = BlockingQueue

  /** A poll thread pushes `value` to the `q2` of its session. */
  datatype Event = Event(session: nat, value: int)

  /** What the events push to the queue of session `i`. */
  function Pushed(events: seq<Event>, i: nat): seq<int> {
    if events == [] then []
    else
      var last := events[|events| - 1];
      Pushed(events[..|events| - 1], i) + (if last.session == i then [last.value] else [])
  }

  function Joined(arrivals: seq<seq<Event>>): seq<Event> {
    if arrivals == [] then [] else Joined(arrivals[..|arrivals| - 1]) + arrivals[|arrivals| - 1]
  }

  /** A queue after the scan of its index, given what was in it, what came before the scan and what came after. */
  function Left(bit: bool, queue: seq<int>, before: seq<int>, after: seq<int>): seq<int> {
    if bit || queue + before == [] then queue + before + after else (queue + before)[1..] + after
  }

  lemma {:induction false} PushedCat(a: seq<Event>, b: seq<Event>, i: nat)
    ensures Pushed(a + b, i) == Pushed(a, i) + Pushed(b, i)
  {
    if b == [] {
      assert a + b == a;
    } else {
      assert (a + b)[..|a + b| - 1] == a + b[..|b| - 1];
      PushedCat(a, b[..|b| - 1], i);
    }
  }

  lemma JoinedLast(arrivals: seq<seq<Event>>, lo: nat, k: nat, i: nat)
    requires lo <= k < |arrivals|
    ensures Pushed(Joined(arrivals[lo..k + 1]), i) == Pushed(Joined(arrivals[lo..k]), i) + Pushed(arrivals[k], i)
  {
    var some := arrivals[lo..k + 1];
    assert some[..|some| - 1] == arrivals[lo..k] && some[|some| - 1] == arrivals[k];
    PushedCat(Joined(arrivals[lo..k]), arrivals[k], i);
  }

  predicate ForQueues(events: seq<Event>, n: nat) {
    forall k | 0 <= k < |events| :: events[k].session < n
  }

  /** All queues after the events. */
  function AfterEvents(queues: seq<seq<int>>, events: seq<Event>): (r: seq<seq<int>>)
    requires ForQueues(events, |queues|)
    ensures |r| == |queues|
  {
    if events == [] then queues
    else
      var before, last := AfterEvents(queues, events[..|events| - 1]), events[|events| - 1];
      before[last.session := before[last.session] + [last.value]]
  }

  lemma {:induction false} AfterEventsAt(queues: seq<seq<int>>, events: seq<Event>, i: nat)
    requires ForQueues(events, |queues|) && i < |queues|
    ensures AfterEvents(queues, events)[i] == queues[i] + Pushed(events, i)
  {
    if events != [] {
      AfterEventsAt(queues, events[..|events| - 1], i);
    }
  }

  /** Bits and queues after one index was looked at. */
  function ScanOne(bits: seq<bool>, queues: seq<seq<int>>, index: nat): (r: (seq<bool>, seq<seq<int>>))
    requires index < |queues| <= |bits|
    ensures |r.0| == |bits| && |r.1| == |queues|
  {
    if bits[index] || queues[index] == [] then (bits, queues)
    else (bits[index := true], queues[index := queues[index][1..]])
  }

  /** Bits and queues after the first `n` indices of a scan, with `arrivals[k]` pushed before index k is looked at. */
  function ScanFirst(bits: seq<bool>, queues: seq<seq<int>>, arrivals: seq<seq<Event>>, n: nat): (r: (seq<bool>, seq<seq<int>>))
    requires n <= |arrivals| <= |queues| && |queues| <= |bits|
    requires forall k | 0 <= k < |arrivals| :: ForQueues(arrivals[k], |queues|)
    ensures |r.0| == |bits| && |r.1| == |queues|
  {
    if n == 0 then (bits, queues)
    else
      var (b, q) := ScanFirst(bits, queues, arrivals, n - 1);
      ScanOne(b, AfterEvents(q, arrivals[n - 1]), n - 1)
  }

  lemma ScanOneAt(bits: seq<bool>, queues: seq<seq<int>>, events: seq<Event>, index: nat, i: nat)
    requires index < |queues| <= |bits| && i < |queues| && ForQueues(events, |queues|)
    ensures var r, more := ScanOne(bits, AfterEvents(queues, events), index), queues[i] + Pushed(events, i);
            if i != index then r.0[i] == bits[i] && r.1[i] == more
            else (r.0[i] <==> bits[i] || more != []) && r.1[i] == Left(bits[i], more, [], [])
  {
    AfterEventsAt(queues, events, i);
    var more := queues[i] + Pushed(events, i);
    assert more + [] + [] == more && more + [] == more;
  }

  lemma LeftGrows(bit: bool, queue: seq<int>, before: seq<int>, after: seq<int>, more: seq<int>)
    ensures Left(bit, queue, before, after) + more == Left(bit, queue, before, after + more)
  {
    var all := queue + before;
    if bit || all == [] {
      assert all + after + more == all + (after + more);
    } else {
      assert all[1..] + after + more == all[1..] + (after + more);
    }
  }

  lemma LeftNow(bit: bool, queue: seq<int>, before: seq<int>)
    ensures Left(bit, queue + before, [], []) == Left(bit, queue, before, [])
  {
    assert queue + before + [] == queue + before;
  }

  /** What the first `n` indices of the scan make of session `i`. */
  ghost predicate Collects(bits: seq<bool>, queues: seq<seq<int>>, arrivals: seq<seq<Event>>, n: nat, i: nat, b: bool, q: seq<int>)
    requires n <= |arrivals| && i < |queues| <= |bits|
  {
    if i < n then
      var before, after := Pushed(Joined(arrivals[0..i + 1]), i), Pushed(Joined(arrivals[i + 1..n]), i);
      (b <==> bits[i] || queues[i] + before != []) && q == Left(bits[i], queues[i], before, after)
    else b == bits[i] && q == queues[i] + Pushed(Joined(arrivals[0..n]), i)
  }

  lemma CollectsOn(bits: seq<bool>, queues: seq<seq<int>>, arrivals: seq<seq<Event>>, n: nat, i: nat, b: bool, q: seq<int>)
    requires n < |arrivals| && i < |queues| <= |bits| && Collects(bits, queues, arrivals, n, i, b, q)
    ensures var more := q + Pushed(arrivals[n], i);
            if i != n then Collects(bits, queues, arrivals, n + 1, i, b, more)
            else Collects(bits, queues, arrivals, n + 1, i, b || more != [], Left(b, more, [], []))
  {
    JoinedLast(arrivals, 0, n, i);
    if i < n {
      JoinedLast(arrivals, i + 1, n, i);
      LeftGrows(bits[i], queues[i], Pushed(Joined(arrivals[0..i + 1]), i), Pushed(Joined(arrivals[i + 1..n]), i), Pushed(arrivals[n], i));
    } else if i == n {
      assert arrivals[i + 1..n + 1] == [];
      var before := Pushed(Joined(arrivals[0..n + 1]), i);
      assert q + Pushed(arrivals[n], i) == queues[i] + before;
      LeftNow(b, queues[i], before);
    } else {
      assert q + Pushed(arrivals[n], i) == queues[i] + Pushed(Joined(arrivals[0..n + 1]), i);
    }
  }

  lemma CollectsStep(bits: seq<bool>, queues: seq<seq<int>>, arrivals: seq<seq<Event>>, n: nat, i: nat, b: seq<bool>, q: seq<seq<int>>)
    requires n < |arrivals| && i < |queues| <= |bits| && |b| == |bits| && n < |q| == |queues| && ForQueues(arrivals[n], |q|)
    requires Collects(bits, queues, arrivals, n, i, b[i], q[i])
    ensures var r := ScanOne(b, AfterEvents(q, arrivals[n]), n);
            Collects(bits, queues, arrivals, n + 1, i, r.0[i], r.1[i])
  {
    ScanOneAt(b, q, arrivals[n], n, i);
    CollectsOn(bits, queues, arrivals, n, i, b[i], q[i]);
  }

  lemma CollectsNone(bits: seq<bool>, queues: seq<seq<int>>, arrivals: seq<seq<Event>>, i: nat)
    requires i < |queues| <= |bits|
    ensures Collects(bits, queues, arrivals, 0, i, bits[i], queues[i])
  {
    assert arrivals[0..0] == [] && queues[i] + [] == queues[i];
  }

  /**
   Exactly the sessions with a clear bit and a block waiting by the time of their index are collected, one
   block each; a block that comes after its index stays in its queue.
   */
  lemma {:induction false} ScanCollects(bits: seq<bool>, queues: seq<seq<int>>, arrivals: seq<seq<Event>>, n: nat, i: nat)
    returns (b: seq<bool>, q: seq<seq<int>>)
    requires n <= |arrivals| <= |queues| && |queues| <= |bits| && i < |queues|
    requires forall k | 0 <= k < |arrivals| :: ForQueues(arrivals[k], |queues|)
    ensures (b, q) == ScanFirst(bits, queues, arrivals, n)
    ensures Collects(bits, queues, arrivals, n, i, b[i], q[i])
  {
    if n > 0 {
      b, q := ScanCollects(bits, queues, arrivals, n - 1, i);
      CollectsStep(bits, queues, arrivals, n - 1, i, b, q);
      var r := ScanOne(b, AfterEvents(q, arrivals[n - 1]), n - 1);
      b, q := r.0, r.1;
    } else {
      b, q := bits, queues;
      CollectsNone(bits, queues, arrivals, i);
    }
  }

  /** The times at which the first `n` indices had their bit set, in the order of the indices. */
  function Marks(before: seq<bool>, after: seq<bool>, now: seq<int>, n: nat): seq<int>
    requires n <= |before| && n <= |after| && n <= |now|
  {
    if n == 0 then [] else Marks(before, after, now, n - 1) + (if !before[n - 1] && after[n - 1] then [now[n - 1]] else [])
  }

  lemma {:induction false} MarksSame(before: seq<bool>, a: seq<bool>, b: seq<bool>, now: seq<int>, n: nat)
    requires n <= |before| && n <= |a| && n <= |b| && n <= |now| && forall i | 0 <= i < n :: a[i] == b[i]
    ensures Marks(before, a, now, n) == Marks(before, b, now, n)
  {
    if n > 0 {
      MarksSame(before, a, b, now, n - 1);
    }
  }

  class Synchronizer {
    const q1: seq<BQ.Queue<int>>
    const q2: seq<BQ.Queue<int>>
    const bitmap: array<bool>
    var readyNum: nat
    var epoch: nat
    var timeRecord: seq<int>

    ghost function View(): Sync
      reads this, bitmap
    {
      Sync(bitmap[..], readyNum, epoch, |timeRecord|)
    }

    /** One pair of queues per session, all of them different objects. */
    ghost predicate Separate() {
      && |q1| == |q2| <= BITMAP_SIZE
      && (forall i, j | 0 <= i < |q1| && 0 <= j < |q1| :: q1[i] != q2[j] && (i != j ==> q1[i] != q1[j] && q2[i] != q2[j]))
    }

    ghost predicate Valid()
      reads this, bitmap
    {
      && Separate() && bitmap.Length == BITMAP_SIZE
      && 1 <= epoch <= EPOCH_ROUND
      && readyNum == BitsSet(bitmap[..], |q1|)
      && |timeRecord| == if epoch == EPOCH_ROUND then 1 + readyNum else 0
    }

    ghost function Queues(): (queues: seq<seq<int>>)
      reads q2
      ensures |queues| == |q2| && forall i | 0 <= i < |q2| :: queues[i] == q2[i].queue
    {
      seq(|q2|, i requires 0 <= i < |q2| reads q2 => q2[i].queue)
    }

    /** Clears the bitmap and gives every session its first go-ahead. */
    constructor (q1: seq<BQ.Queue<int>>, q2: seq<BQ.Queue<int>>)
      requires |q1| == |q2| <= BITMAP_SIZE
      requires forall i, j | 0 <= i < |q1| && 0 <= j < |q1| :: q1[i] != q2[j] && (i != j ==> q1[i] != q1[j] && q2[i] != q2[j])
      modifies q1
      ensures Valid() && fresh(bitmap) && this.q1 == q1 && this.q2 == q2
      ensures View() == Sync(NoBits(BITMAP_SIZE), 0, 1, 0)
      ensures forall i | 0 <= i < |q1| :: q1[i].queue == old(q1[i].queue) + [SIG]
    {
      this.q1, this.q2 := q1, q2;
      bitmap := new bool[BITMAP_SIZE](_ => false);
      readyNum, epoch, timeRecord := 0, 1, [];
      new;
      BitsAll(bitmap[..], |q1|);
      assert bitmap[..] == NoBits(BITMAP_SIZE);
      SignalAll();
    }

    /** One index of the scan. */
    method ScanIndex(index: nat, now: int)
      requires Valid() && index < |q1|
      modifies this`readyNum, this`timeRecord, bitmap, q2[index]
      ensures Valid()
      ensures View() == if old(bitmap[index]) || old(q2[index].queue) == [] then old(View()) else Scanned(old(View()), index)
      ensures epoch == old(epoch)
      ensures bitmap[index] <==> old(bitmap[index]) || old(q2[index].queue) != []
      ensures timeRecord == old(timeRecord) + (if epoch == 3997 && !old(bitmap[index]) && bitmap[index] then [now] else [])
      ensures forall i | 0 <= i < bitmap.Length && i != index :: bitmap[i] == old(bitmap[i])
      ensures forall i | 0 <= i < |q2| && i != index :: q2[i].queue == old(q2[i].queue)
      ensures q2[index].queue == if old(bitmap[index]) || old(q2[index].queue) == [] then old(q2[index].queue) else old(q2[index].queue)[1..]
    {
      if !bitmap[index] {
        ghost var before := bitmap[..];
        var value := q2[index].TryPop();
        if value.Some? {
          BitsSetOne(before, |q1|, index);
          readyNum := readyNum + 1;
          bitmap[index] := true;
          assert bitmap[..] == before[index := true];
          if epoch == EPOCH_ROUND {
            timeRecord := timeRecord + [now];
          }
        }
      }
    }

    method ArriveOne(e: Event)
      requires Separate() && e.session < |q2|
      modifies q2[e.session]
      ensures Queues() == old(Queues())[e.session := old(Queues())[e.session] + [e.value]]
    {
      q2[e.session].Push(e.value);
    }

    /** The poll threads push blocks, each to the queue of its session. */
    method Arrive(events: seq<Event>)
      requires Separate() && ForQueues(events, |q2|)
      modifies q2
      ensures Queues() == AfterEvents(old(Queues()), events)
    {
      for k := 0 to |events|
        invariant Queues() == AfterEvents(old(Queues()), events[..k])
      {
        assert events[..k + 1][..k] == events[..k];
        ArriveOne(events[k]);
      }
      assert events[..|events|] == events;
    }

    /** One index of the scan, after some pushes. */
    method ScanAt(index: nat, now: int, events: seq<Event>)
      requires Valid() && index < |q1| && ForQueues(events, |q2|)
      modifies this`readyNum, this`timeRecord, bitmap, q2
      ensures Valid() && epoch == old(epoch)
      ensures forall i | 0 <= i < bitmap.Length && i != index :: bitmap[i] == old(bitmap[i])
      ensures timeRecord == old(timeRecord) + (if epoch == 3997 && !old(bitmap[index]) && bitmap[index] then [now] else [])
      ensures bitmap[..] == ScanOne(old(bitmap[..]), AfterEvents(old(Queues()), events), index).0
      ensures Queues() == ScanOne(old(bitmap[..]), AfterEvents(old(Queues()), events), index).1
    {
      Arrive(events);
      ghost var bits, queues := bitmap[..], Queues();
      ScanIndex(index, now);
      assert bitmap[..] == ScanOne(bits, queues, index).0;
      assert Queues() == ScanOne(bits, queues, index).1;
    }

    /** Where a scan that found `bits`, `queues` and `times` is after the first `n` indices. */
    ghost predicate ScannedTo(bits: seq<bool>, queues: seq<seq<int>>, times: seq<int>, now: seq<int>, arrivals: seq<seq<Event>>, n: nat)
      requires n <= |now| == |arrivals| == |queues| && |queues| <= |bits| == bitmap.Length
      requires forall k | 0 <= k < |arrivals| :: ForQueues(arrivals[k], |queues|)
      reads this, bitmap, q2
    {
      && bitmap[..] == ScanFirst(bits, queues, arrivals, n).0 && Queues() == ScanFirst(bits, queues, arrivals, n).1
      && (forall i | n <= i < bitmap.Length :: bitmap[i] == bits[i])
      && timeRecord == times + (if epoch == 3997 then Marks(bits, bitmap[..], now, n) else [])
    }

    method ScanNext(index: nat, now: seq<int>, arrivals: seq<seq<Event>>, ghost bits: seq<bool>, ghost queues: seq<seq<int>>, ghost times: seq<int>)
      requires Valid() && index < |q1| == |now| == |arrivals| == |queues| && |bits| == bitmap.Length
      requires forall k | 0 <= k < |arrivals| :: ForQueues(arrivals[k], |queues|)
      requires ScannedTo(bits, queues, times, now, arrivals, index)
      modifies this`readyNum, this`timeRecord, bitmap, q2
      ensures Valid() && epoch == old(epoch) && ScannedTo(bits, queues, times, now, arrivals, index + 1)
    {
      ghost var before := bitmap[..];
      ScanAt(index, now[index], arrivals[index]);
      MarksSame(bits, before, bitmap[..], now, index);
    }

    /** A full scan, in the middle of which the poll threads push blocks. */
    method ScanAll(now: seq<int>, arrivals: seq<seq<Event>>) returns (complete: bool)
      requires Valid() && |now| == |arrivals| == |q1|
      requires forall k | 0 <= k < |arrivals| :: ForQueues(arrivals[k], |q2|)
      modifies this`readyNum, this`timeRecord, bitmap, q2
      ensures Valid() && epoch == old(epoch)
      ensures bitmap[..] == ScanFirst(old(bitmap[..]), old(Queues()), arrivals, |q1|).0
      ensures Queues() == ScanFirst(old(bitmap[..]), old(Queues()), arrivals, |q1|).1
      ensures complete <==> forall i | 0 <= i < |q1| :: bitmap[i]
      ensures timeRecord == old(timeRecord) + (if epoch == 3997 then Marks(old(bitmap[..]), bitmap[..], now, |q1|) else [])
    {
      for index := 0 to |q1|
        invariant Valid() && epoch == old(epoch)
        invariant ScannedTo(old(bitmap[..]), old(Queues()), old(timeRecord), now, arrivals, index)
      {
        ScanNext(index, now, arrivals, old(bitmap[..]), old(Queues()), old(timeRecord));
      }
      BitsAll(bitmap[..], |q1|);
      complete := readyNum == |q1|;
    }

    /** A go-ahead for every session. */
    method SignalAll()
      requires Separate()
      modifies q1
      ensures forall i | 0 <= i < |q1| :: q1[i].queue == old(q1[i].queue) + [SIG]
    {
      for k := 0 to |q1|
        invariant forall i | 0 <= i < k :: q1[i].queue == old(q1[i].queue) + [SIG]
        invariant forall i | k <= i < |q1| :: q1[i].queue == old(q1[i].queue)
      {
        q1[k].Push(SIG);
      }
    }

    method ClearBitmap()
      requires bitmap.Length == BITMAP_SIZE && |q1| <= BITMAP_SIZE
      modifies bitmap
      ensures bitmap[..] == NoBits(BITMAP_SIZE) && BitsSet(bitmap[..], |q1|) == 0
    {
      forall i | 0 <= i < BITMAP_SIZE {
        bitmap[i] := false;
      }
      assert bitmap[..] == NoBits(BITMAP_SIZE);
      BitsAll(bitmap[..], |q1|);
    }

    /** How long each session took, in the order in which the blocks were collected. */
    method Report() returns (report: seq<int>)
      requires |timeRecord| == |q1| + 1
      ensures |report| == |q1| && forall i | 0 <= i < |q1| :: report[i] == timeRecord[i + 1] - timeRecord[0]
    {
      report := [];
      for index := 1 to |q1| + 1
        invariant |report| == index - 1
        invariant forall i | 0 <= i < index - 1 :: report[i] == timeRecord[i + 1] - timeRecord[0]
      {
        report := report + [timeRecord[index] - timeRecord[0]];
      }
    }

    /** The end of a complete round: mark the time, release every session, reset, and report in the last epoch. */
    method FinishRound(now: int) returns (report: seq<int>)
      requires Valid() && readyNum == |q1|
      modifies this, bitmap, q1
      ensures Valid()
      ensures View() == Ended(Completed(old(View())).(readyNum := 0))
      ensures readyNum == 0 && (forall i | 0 <= i < bitmap.Length :: !bitmap[i])
      ensures epoch == if old(epoch) == 3997 then 1 else old(epoch) + 1
      ensures timeRecord == if old(epoch) == 3996 then [now] else []
      ensures forall i | 0 <= i < |q1| :: q1[i].queue == old(q1[i].queue) + [SIG]
      ensures old(epoch) == EPOCH_ROUND ==>
                |report| == |q1| && forall i | 0 <= i < |q1| :: report[i] == old(timeRecord)[i + 1] - old(timeRecord)[0]
      ensures old(epoch) != EPOCH_ROUND ==> report == []
    {
      report := [];
      if epoch == EPOCH_ROUND - 1 {
        timeRecord := [now];
      }
      assert View() == Completed(old(View()));
      SignalAll();
      readyNum := 0;
      ClearBitmap();
      if epoch == EPOCH_ROUND {
        report := Report();
        epoch, timeRecord := 0, [];
      }
      epoch := epoch + 1;
    }
  }
}
