/**
 The full-mesh benchmark: per session a client and a server poll thread that pass one token around, and
 one synchronization thread that collects a block from every session before it releases any of them.
 */
module MeshBarrier {

  const HELLO := 23
  const READY := 666
  const GO := 888
  const BLOCK := 1024000
  const SIG := 1
  const BITMAP_SIZE := 32
  const EPOCH_ROUND := 3997

  /** The server's poll thread inside the handling of one completion. */
  datatype Poll =
    | Waiting
    | Got(imm: int)
    | NeedGo
    | Sending

  /**
   One session: immediates on the wire in each direction, the poll thread, the two queues to and from
   the synchronization thread, and how many go-aheads it was given and blocks were collected from it.
   */
  datatype Session = Session(toClient: seq<int>, toServer: seq<int>, poll: Poll, q1: seq<int>, q2: seq<int>,
                             goAheads: nat, collected: nat)

  datatype Phase =
    | Start(next: nat)
    | Scan(next: nat)
    | Check
    | Release(next: nat)
    | ResetCount
    | ResetBitmap

  /** The synchronization thread's variables; of `time_record` only the length matters. */
  datatype Sync = Sync(bitmap: seq<bool>, readyNum: nat, epoch: nat, records: nat)

  /** `members` is `max_QP`: read once, while the group the release loop runs over may still grow. */
  datatype World = World(sessions: seq<Session>, members: nat, phase: Phase, sync: Sync, round: nat)

  datatype Act =
    | ClientReceives(i: nat)
    | TakeCompletion(i: nat)
    | HandleImm(i: nat)
    | PopGo(i: nat)
    | SendGo(i: nat)
    | SyncStep
    | Join

  function NoBits(n: nat): (b: seq<bool>)
    ensures |b| == n && forall i | 0 <= i < n :: !b[i]
  {
    if n == 0 then [] else NoBits(n - 1) + [false]
  }

  /** A client that has just connected and is about to receive the server's memory information. */
  const FRESH := Session([READY], [], Waiting, [], [], 0, 0)

  /** The `n` clients that are connected when the synchronization thread reads `max_QP`. */
  function Init(n: nat): World {
    World(seq(n, _ => FRESH), n, Start(0), Sync(NoBits(BITMAP_SIZE), 0, 1, 0), 0)
  }

  predicate Enabled(w: World, act: Act) {
    match act
    case ClientReceives(i) => i < |w.sessions| && w.sessions[i].toClient != []
    case TakeCompletion(i) => i < |w.sessions| && w.sessions[i].poll.Waiting? && w.sessions[i].toServer != []
    case HandleImm(i) => i < |w.sessions| && w.sessions[i].poll.Got?
    case PopGo(i) => i < |w.sessions| && w.sessions[i].poll.NeedGo? && w.sessions[i].q1 != []
    case SendGo(i) => i < |w.sessions| && w.sessions[i].poll.Sending?
    case SyncStep =>
      w.phase.Scan? && w.phase.next < w.members ==> w.phase.next < |w.sessions| && w.phase.next < |w.sync.bitmap|
    case Join => w.phase.Start? || w.phase.Release? ==> w.phase.next == 0
  }

  /** The client writes its address on the first message and one block on every go-ahead. */
  function ClientReceived(s: Session): Session
    requires s.toClient != []
  {
    var s' := s.(toClient := s.toClient[1..]);
    if s.toClient[0] == READY then s'.(toServer := s'.toServer + [HELLO])
    else if s.toClient[0] == GO then s'.(toServer := s'.toServer + [BLOCK])
    else s'
  }

  /** The poll thread passes on every immediate but the hello's. */
  function ImmHandled(s: Session): Session
    requires s.poll.Got?
  {
    (if s.poll.imm == HELLO then s else s.(q2 := s.q2 + [s.poll.imm])).(poll := NeedGo)
  }

  function GiveGo(s: Session): Session {
    s.(q1 := s.q1 + [SIG], goAheads := s.goAheads + 1)
  }

  /** `try_pop` at an index whose bit is clear. */
  function Scanned(sync: Sync, index: nat): Sync
    requires index < |sync.bitmap|
  {
    sync.(readyNum := sync.readyNum + 1, bitmap := sync.bitmap[index := true],
          records := if sync.epoch == EPOCH_ROUND then sync.records + 1 else sync.records)
  }

  /** What happens to the time record when a round is complete, before its release. */
  function Completed(sync: Sync): Sync {
    if sync.epoch == EPOCH_ROUND - 1 then sync.(records := 1) else sync
  }

  /** The end of a round, after `ready_num` was reset. */
  function Ended(sync: Sync): Sync {
    var cleared := sync.(bitmap := NoBits(BITMAP_SIZE));
    if sync.epoch == EPOCH_ROUND then cleared.(epoch := 1, records := 0) else cleared.(epoch := sync.epoch + 1)
  }

  function With(w: World, i: nat, s: Session): World
    requires i < |w.sessions|
  {
    w.(sessions := w.sessions[i := s])
  }

  function SyncStepped(w: World): World
    requires Enabled(w, SyncStep)
  {
    match w.phase
    case Start(k) =>
      if k < |w.sessions| then With(w, k, GiveGo(w.sessions[k])).(phase := Start(k + 1))
      else w.(phase := Scan(0))
    case Scan(k) =>
      if k >= w.members then w.(phase := Check)
      else if w.sync.bitmap[k] || w.sessions[k].q2 == [] then w.(phase := Scan(k + 1))
      else
        var s := w.sessions[k];
        With(w, k, s.(q2 := s.q2[1..], collected := s.collected + 1)).(phase := Scan(k + 1), sync := Scanned(w.sync, k))
    case Check =>
      if w.sync.readyNum == w.members then w.(phase := Release(0), sync := Completed(w.sync))
      else w.(phase := Scan(0))
    case Release(k) =>
      if k < |w.sessions| then With(w, k, GiveGo(w.sessions[k])).(phase := Release(k + 1))
      else w.(phase := ResetCount)
    case ResetCount =>
      w.(phase := ResetBitmap, sync := w.sync.(readyNum := 0))
    case ResetBitmap =>
      w.(phase := Scan(0), sync := Ended(w.sync), round := w.round + 1)
  }

  function Step(w: World, act: Act): World
    requires Enabled(w, act)
  {
    match act
    case ClientReceives(i) => With(w, i, ClientReceived(w.sessions[i]))
    case TakeCompletion(i) =>
      var s := w.sessions[i];
      With(w, i, s.(toServer := s.toServer[1..], poll := Got(s.toServer[0])))
    case HandleImm(i) => With(w, i, ImmHandled(w.sessions[i]))
    case PopGo(i) =>
      var s := w.sessions[i];
      With(w, i, s.(q1 := s.q1[1..], poll := Sending))
    case SendGo(i) =>
      var s := w.sessions[i];
      With(w, i, s.(poll := Waiting, toClient := s.toClient + [GO]))
    case SyncStep => SyncStepped(w)
    case Join => w.(sessions := w.sessions + [FRESH])
  }

  function Bit(b: bool): nat {
    if b then 1 else 0
  }

  /** Go-ahead tokens of a session outside the synchronization thread's hands. */
  function Tokens(s: Session): nat {
    |s.q1| + Bit(s.poll.Sending?) + multiset(s.toClient)[GO] + multiset(s.toServer)[BLOCK] + Bit(s.poll == Got(BLOCK)) + |s.q2|
  }

  /** The session's hello has been handled. */
  predicate Running(s: Session) {
    READY !in s.toClient && HELLO !in s.toServer && s.poll != Got(HELLO)
  }

  /** One message on the wire or in the poll thread's hands at a time, and before the hello is handled only the hello. */
  ghost predicate Shape(s: Session) {
    && |s.toClient| + |s.toServer| == Bit(s.poll.Waiting?)
    && (s.toClient != [] ==> s.toClient[0] == READY || s.toClient[0] == GO)
    && (s.toServer != [] ==> s.toServer[0] == HELLO || s.toServer[0] == BLOCK)
    && (s.poll.Got? ==> s.poll.imm == HELLO || s.poll.imm == BLOCK)
    && (!Running(s) ==> s.q2 == [] && s.collected == 0)
  }

  ghost predicate SessionInv(s: Session) {
    Shape(s) && s.collected <= s.goAheads && Tokens(s) == s.goAheads - s.collected
  }

  /** The number of set bits among the first `n`. */
  function BitsSet(bitmap: seq<bool>, n: nat): nat
    requires n <= |bitmap|
  {
    if n == 0 then 0 else BitsSet(bitmap, n - 1) + Bit(bitmap[n - 1])
  }

  /** The go-aheads a session has been given after `round` complete rounds. */
  function ExpectedGoAheads(phase: Phase, round: nat, i: nat): nat {
    match phase
    case Start(k) => Bit(i < k)
    case Scan(_) => round + 1
    case Check => round + 1
    case Release(k) => round + 1 + Bit(i < k)
    case ResetCount => round + 2
    case ResetBitmap => round + 2
  }

  /** A set bit means the block of this round is collected; all bits stay set from the release until they are cleared. */
  ghost predicate AtRound(w: World, i: nat)
    requires i < |w.sessions| && i < |w.sync.bitmap|
  {
    && w.sessions[i].goAheads == ExpectedGoAheads(w.phase, w.round, i)
    && w.sessions[i].collected == w.round + Bit(w.sync.bitmap[i])
    && (w.phase.Start? ==> !w.sync.bitmap[i])
    && (w.phase.Release? || w.phase.ResetCount? || w.phase.ResetBitmap? ==> w.sync.bitmap[i])
  }

  ghost predicate RoundInv(w: World)
    requires w.members <= |w.sessions| && w.members <= |w.sync.bitmap|
  {
    && (w.phase.Start? ==> w.round == 0)
    && (w.phase.Start? || w.phase.Release? ==> w.phase.next <= |w.sessions|)
    && (forall i | 0 <= i < w.members :: AtRound(w, i))
    && (forall i | w.members <= i < |w.sessions| :: w.sessions[i].collected == 0)
  }

  ghost predicate SyncInv(w: World) {
    && |w.sync.bitmap| == BITMAP_SIZE && w.members <= BITMAP_SIZE && w.members <= |w.sessions|
    && w.sync.epoch == 1 + w.round % EPOCH_ROUND
    && (if w.phase.ResetBitmap? then w.sync.readyNum == 0
        else w.sync.readyNum == BitsSet(w.sync.bitmap, w.members))
    && w.sync.records == ExpectedRecords(w)
  }

  /** The length of the time record: a start mark made when the last but one epoch ends, then one per block of the last. */
  function ExpectedRecords(w: World): nat
    requires w.members <= |w.sync.bitmap|
  {
    if w.sync.epoch == EPOCH_ROUND then 1 + BitsSet(w.sync.bitmap, w.members)
    else if w.sync.epoch == EPOCH_ROUND - 1 && (w.phase.Release? || w.phase.ResetCount? || w.phase.ResetBitmap?) then 1
    else 0
  }

  ghost predicate Inv(w: World) {
    SyncInv(w) && RoundInv(w) && forall i | 0 <= i < |w.sessions| :: SessionInv(w.sessions[i])
  }

  lemma {:induction false} BitsAll(bitmap: seq<bool>, n: nat)
    requires n <= |bitmap|
    ensures BitsSet(bitmap, n) <= n
    ensures BitsSet(bitmap, n) == n <==> forall i | 0 <= i < n :: bitmap[i]
    ensures BitsSet(bitmap, n) == 0 <==> forall i | 0 <= i < n :: !bitmap[i]
  {
    if n > 0 {
      BitsAll(bitmap, n - 1);
    }
  }

  lemma {:induction false} BitsSetOne(bitmap: seq<bool>, n: nat, k: nat)
    requires k < n <= |bitmap| && !bitmap[k]
    ensures BitsSet(bitmap[k := true], n) == BitsSet(bitmap, n) + 1
  {
    if k == n - 1 {
      BitsSame(bitmap, bitmap[k := true], n - 1);
    } else {
      BitsSetOne(bitmap, n - 1, k);
    }
  }

  lemma {:induction false} BitsSame(a: seq<bool>, b: seq<bool>, n: nat)
    requires n <= |a| && n <= |b| && forall i | 0 <= i < n :: a[i] == b[i]
    ensures BitsSet(a, n) == BitsSet(b, n)
  {
    if n > 0 {
      BitsSame(a, b, n - 1);
    }
  }

  lemma FreshInv()
    ensures SessionInv(FRESH)
  {
    assert multiset(FRESH.toClient)[GO] == 0;
  }

  lemma InvInit(n: nat)
    requires n <= BITMAP_SIZE
    ensures Inv(Init(n))
  {
    BitsAll(NoBits(BITMAP_SIZE), n);
    FreshInv();
  }

  lemma SessionInvReceive(s: Session)
    requires SessionInv(s) && s.toClient != []
    ensures SessionInv(ClientReceived(s))
  {
    assert s.toClient == [s.toClient[0]];
  }

  lemma SessionInvTake(s: Session)
    requires SessionInv(s)
    ensures s.poll.Waiting? && s.toServer != [] ==> SessionInv(s.(toServer := s.toServer[1..], poll := Got(s.toServer[0])))
    ensures s.poll.Got? ==> SessionInv(ImmHandled(s))
  {
    assert s.toServer != [] ==> s.toServer == [s.toServer[0]];
  }

  lemma SessionInvSend(s: Session)
    requires SessionInv(s)
    ensures s.poll.NeedGo? && s.q1 != [] ==> SessionInv(s.(q1 := s.q1[1..], poll := Sending))
    ensures s.poll.Sending? ==> SessionInv(s.(poll := Waiting, toClient := s.toClient + [GO]))
  {
  }

  /** The steps of client, wire and poll thread keep the token where exactly one of them has it. */
  lemma SessionInvSteps(s: Session)
    requires SessionInv(s)
    ensures s.toClient != [] ==> SessionInv(ClientReceived(s))
    ensures s.poll.Waiting? && s.toServer != [] ==> SessionInv(s.(toServer := s.toServer[1..], poll := Got(s.toServer[0])))
    ensures s.poll.Got? ==> SessionInv(ImmHandled(s))
    ensures s.poll.NeedGo? && s.q1 != [] ==> SessionInv(s.(q1 := s.q1[1..], poll := Sending))
    ensures s.poll.Sending? ==> SessionInv(s.(poll := Waiting, toClient := s.toClient + [GO]))
  {
    if s.toClient != [] {
      SessionInvReceive(s);
    }
    SessionInvTake(s);
    SessionInvSend(s);
  }

  lemma SessionInvGive(s: Session)
    requires SessionInv(s)
    ensures SessionInv(GiveGo(s))
    ensures s.q2 != [] ==> SessionInv(s.(q2 := s.q2[1..], collected := s.collected + 1))
  {
  }

  lemma InvWith(w: World, i: nat, s: Session)
    requires Inv(w) && i < |w.sessions| && SessionInv(s)
    requires s.goAheads == w.sessions[i].goAheads && s.collected == w.sessions[i].collected
    ensures Inv(With(w, i, s))
  {
    forall j | 0 <= j < w.members ensures AtRound(With(w, i, s), j) {
      assert AtRound(w, j);
    }
  }

  lemma InvStepSession(w: World, act: Act)
    requires Inv(w) && Enabled(w, act) && !act.SyncStep? && !act.Join?
    ensures Inv(Step(w, act))
  {
    var i := act.i;
    SessionInvSteps(w.sessions[i]);
    InvWith(w, i, Step(w, act).sessions[i]);
    assert Step(w, act) == With(w, i, Step(w, act).sessions[i]);
  }

  lemma InvJoin(w: World)
    requires Inv(w) && Enabled(w, Join)
    ensures Inv(Step(w, Join))
  {
    FreshInv();
    forall j | 0 <= j < w.members ensures AtRound(Step(w, Join), j) {
      assert AtRound(w, j);
    }
  }

  lemma InvStepGive(w: World)
    requires Inv(w) && (w.phase.Start? || w.phase.Release?)
    ensures Inv(SyncStepped(w))
  {
    var w' := SyncStepped(w);
    if w.phase.next < |w.sessions| {
      SessionInvGive(w.sessions[w.phase.next]);
    }
    RoundInvGive(w);
    assert SyncInv(w');
  }

  lemma RoundInvGive(w: World)
    requires SyncInv(w) && RoundInv(w) && (w.phase.Start? || w.phase.Release?)
    ensures RoundInv(SyncStepped(w))
  {
    forall j | 0 <= j < w.members ensures AtRound(SyncStepped(w), j) {
      assert AtRound(w, j);
    }
  }

  lemma InvStepCollect(w: World)
    requires Inv(w) && Enabled(w, SyncStep) && w.phase.Scan? && w.phase.next < w.members
    requires !w.sync.bitmap[w.phase.next] && w.sessions[w.phase.next].q2 != []
    ensures Inv(SyncStepped(w))
  {
    var w' := SyncStepped(w);
    SessionInvGive(w.sessions[w.phase.next]);
    BitsSetOne(w.sync.bitmap, w.members, w.phase.next);
    forall j | 0 <= j < w.members ensures AtRound(w', j) {
      assert AtRound(w, j);
    }
  }

  lemma InvStepScan(w: World)
    requires Inv(w) && Enabled(w, SyncStep) && w.phase.Scan?
    ensures Inv(SyncStepped(w))
  {
    var k := w.phase.next;
    var w' := SyncStepped(w);
    if k < w.members && !w.sync.bitmap[k] && w.sessions[k].q2 != [] {
      InvStepCollect(w);
    } else {
      forall j | 0 <= j < w.members ensures AtRound(w', j) {
        assert AtRound(w, j);
      }
    }
  }

  lemma InvStepPhase(w: World)
    requires Inv(w) && (w.phase.Check? || w.phase.ResetCount? || w.phase.ResetBitmap?)
    ensures Inv(SyncStepped(w))
  {
    var w' := SyncStepped(w);
    BitsAll(w.sync.bitmap, w.members);
    BitsAll(NoBits(BITMAP_SIZE), w.members);
    forall j | 0 <= j < w.members ensures AtRound(w', j) {
      assert AtRound(w, j);
    }
  }

  lemma InvStepSync(w: World)
    requires Inv(w) && Enabled(w, SyncStep)
    ensures Inv(SyncStepped(w))
  {
    match w.phase
    case Start(_) => InvStepGive(w);
    case Scan(_) => InvStepScan(w);
    case Release(_) => InvStepGive(w);
    case _ => InvStepPhase(w);
  }

  lemma InvStep(w: World, act: Act)
    requires Inv(w) && Enabled(w, act)
    ensures Inv(Step(w, act)) && Step(w, act).members == w.members
  {
    match act
    case SyncStep => InvStepSync(w);
    case Join => InvJoin(w);
    case _ => InvStepSession(w, act);
  }

  ghost predicate IsRun(n: nat, trace: seq<World>, acts: seq<Act>) {
    && |trace| == |acts| + 1
    && trace[0] == Init(n)
    && forall k | 0 <= k < |acts| :: Enabled(trace[k], acts[k]) && trace[k + 1] == Step(trace[k], acts[k])
  }

  lemma {:induction false} RunInv(n: nat, trace: seq<World>, acts: seq<Act>, k: nat)
    requires n <= BITMAP_SIZE && IsRun(n, trace, acts) && k < |trace|
    ensures Inv(trace[k]) && trace[k].members == n
  {
    if k == 0 {
      InvInit(n);
    } else {
      RunInv(n, trace, acts, k - 1);
      InvStep(trace[k - 1], acts[k - 1]);
    }
  }

  /** The synchronization thread has collected the member's block and not yet given the next go-ahead. */
  predicate HeldBySync(w: World, i: nat)
    requires i < |w.sync.bitmap|
  {
    match w.phase
    case Start(k) => i >= k
    case Release(k) => i >= k
    case ResetCount => false
    case ResetBitmap => false
    case _ => w.sync.bitmap[i]
  }

  /**
   In every interleaving the go-ahead of a session that was connected in time is in exactly one place: its
   q1, the poll thread, the wire or the client, its q2, or with the synchronization thread. So none of its
   queues ever holds two items, although during the release the old bits are still set and a released
   session may already have come round again.
   */
  lemma TokenInOnePlace(n: nat, trace: seq<World>, acts: seq<Act>, k: nat, i: nat)
    requires n <= BITMAP_SIZE && IsRun(n, trace, acts) && k < |trace| && i < n
    ensures i < |trace[k].sessions| && i < |trace[k].sync.bitmap|
    ensures Tokens(trace[k].sessions[i]) + Bit(HeldBySync(trace[k], i)) == 1
    ensures |trace[k].sessions[i].q1| <= 1 && |trace[k].sessions[i].q2| <= 1
    ensures |trace[k].sessions[i].toClient| + |trace[k].sessions[i].toServer| <= 1
  {
    RunInv(n, trace, acts, k);
    assert AtRound(trace[k], i);
  }

  /**
   At the check before a session's release every place its go-ahead could be is empty, its q2 among them,
   exactly if it was connected when `max_QP` was read or has never been given a go-ahead.
   */
  lemma MustBeEmpty(n: nat, trace: seq<World>, acts: seq<Act>, k: nat)
    requires n <= BITMAP_SIZE && IsRun(n, trace, acts) && k < |trace|
    requires trace[k].phase.Release? && trace[k].phase.next < |trace[k].sessions|
    ensures var i := trace[k].phase.next;
            var s := trace[k].sessions[i];
            && (Tokens(s) == 0 <==> i < n || s.goAheads == 0)
            && (i < n ==> s.q2 == [])
  {
    RunInv(n, trace, acts, k);
    var i := trace[k].phase.next;
    if i < n {
      assert AtRound(trace[k], i);
    }
  }

  /**
   The rounds are a barrier for the sessions connected in time and for no others: when such a session gets
   its next go-ahead, the block of the round of every session connected in time has been collected, while
   of a later session no block is ever collected.
   */
  lemma RoundsAreABarrier(n: nat, trace: seq<World>, acts: seq<Act>, k: nat, i: nat)
    requires n <= BITMAP_SIZE && IsRun(n, trace, acts) && k < |trace|
    requires trace[k].phase.Release? && trace[k].phase.next == i < |trace[k].sessions|
    ensures n <= |trace[k].sessions|
    ensures i < n ==> trace[k].sessions[i].goAheads == trace[k].round + 1
    ensures forall j: nat | j < |trace[k].sessions| ::
              trace[k].sessions[j].collected == (if j < n then trace[k].round + 1 else 0)
  {
    RunInv(n, trace, acts, k);
    forall j: nat | j < n ensures trace[k].sessions[j].collected == trace[k].round + 1 {
      assert AtRound(trace[k], j);
    }
    if i < n {
      assert AtRound(trace[k], i);
    }
  }

  /** The go-ahead counts of two sessions connected in time never differ by more than one. */
  lemma GoAheadsKeepStep(n: nat, trace: seq<World>, acts: seq<Act>, k: nat, i: nat, j: nat)
    requires n <= BITMAP_SIZE && IsRun(n, trace, acts) && k < |trace| && i < n && j < n
    ensures n <= |trace[k].sessions|
    ensures trace[k].sessions[i].goAheads <= trace[k].sessions[j].goAheads + 1
  {
    RunInv(n, trace, acts, k);
    assert AtRound(trace[k], i) && AtRound(trace[k], j);
  }

  /** `ready_num` counts the set bits in every state but the one between its own reset and the bitmap's. */
  lemma ReadyNumCountsBits(n: nat, trace: seq<World>, acts: seq<Act>, k: nat)
    requires n <= BITMAP_SIZE && IsRun(n, trace, acts) && k < |trace|
    ensures n <= |trace[k].sync.bitmap|
    ensures !trace[k].phase.ResetBitmap? ==> trace[k].sync.readyNum == BitsSet(trace[k].sync.bitmap, n)
    ensures trace[k].phase.ResetBitmap? ==> trace[k].sync.readyNum == 0 && BitsSet(trace[k].sync.bitmap, n) == n
  {
    RunInv(n, trace, acts, k);
    BitsAll(trace[k].sync.bitmap, n);
    forall i | trace[k].phase.ResetBitmap? && 0 <= i < n ensures trace[k].sync.bitmap[i] {
      assert AtRound(trace[k], i);
    }
  }

  /**
   The epoch counts the rounds from 1 to 3997 over and over, so the report is made at the end of every
   3997th round and of no other.
   */
  lemma EpochCountsRounds(n: nat, trace: seq<World>, acts: seq<Act>, k: nat)
    requires n <= BITMAP_SIZE && IsRun(n, trace, acts) && k < |trace|
    ensures trace[k].sync.epoch == 1 + trace[k].round % 3997
    ensures trace[k].sync.epoch == EPOCH_ROUND <==> (trace[k].round + 1) % 3997 == 0
    ensures k < |acts| && trace[k + 1].round != trace[k].round ==> trace[k + 1].round == trace[k].round + 1
  {
    RunInv(n, trace, acts, k);
  }

  /** The report that ends the last epoch reads entries 0 to n of the time record, which then has exactly n + 1. */
  lemma ReportIsInRange(n: nat, trace: seq<World>, acts: seq<Act>, k: nat)
    requires n <= BITMAP_SIZE && IsRun(n, trace, acts) && k < |trace|
    requires trace[k].phase.ResetBitmap? && trace[k].sync.epoch == EPOCH_ROUND
    ensures trace[k].sync.records == n + 1
  {
    RunInv(n, trace, acts, k);
    ReadyNumCountsBits(n, trace, acts, k);
  }
}
