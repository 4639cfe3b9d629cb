/**
 The semaphores of userland/include/synch.h and the producer-consumer queue of
 userland/src/threads.c, composed with the mutex: any number of producer and
 consumer threads, one step per atomic operation, load or store.
 */
module BoundedQueue {
  import opened Options
  import opened Arith
  import M = Mutex

  const QUEUE_SIZE: nat := 8

  datatype Role = Producer | Consumer

  datatype Sem = Empty | Full

  datatype LockId = SemLock(sem: Sem) | QueueLock

  /** Program locations of one round of `producer_func` or `consumer_func`. */
  datatype Loc =
    | WLock             // sem_wait: in mutex_lock, then at the test of the count
    | WLoad             // sem_wait: load of `count--`
    | WStore(c: int)    // sem_wait: store of `count--`
    | WUnlockOk         // sem_wait: in mutex_unlock after the decrement
    | WUnlockFail       // sem_wait: in mutex_unlock after finding zero
    | WFutex            // sem_wait: FUTEX_WAIT on the count for value 0
    | WAsleep           // in the kernel, on the count's wait channel
    | QLock             // in mutex_lock of the queue, then at the item access
    | QMove             // at the update of tail or head
    | QUnlock           // in mutex_unlock of the queue
    | PLock             // sem_post: in mutex_lock, then at the load of `count++`
    | PStore(c: int)    // sem_post: store of `count++`
    | PUnlock           // sem_post: in mutex_unlock
    | PWake             // sem_post: FUTEX_WAKE one on the count
    | Done

  /** `left` counts the rounds not yet finished. */
  datatype Thread = Thread(role: Role, loc: Loc, pc: M.Pc, left: nat)

  datatype State = State(emptyWord: int, fullWord: int, queueWord: int, empty: int, full: int,
                         items: seq<int>, head: nat, tail: nat,
                         ts: seq<Thread>, enqueued: seq<int>, dequeued: seq<int>) {
    function Word(l: LockId): int {
      match l case SemLock(Empty) => emptyWord case SemLock(Full) => fullWord case QueueLock => queueWord
    }

    function WithWord(l: LockId, v: int): State {
      match l
      case SemLock(Empty) => this.(emptyWord := v)
      case SemLock(Full) => this.(fullWord := v)
      case QueueLock => this.(queueWord := v)
    }

    function Count(m: Sem): int { if m.Empty? then empty else full }

    function WithCount(m: Sem, c: int): State { if m.Empty? then this.(empty := c) else this.(full := c) }

    /** The mutex `l`, as the transition system of module Mutex sees it. */
    function LockState(l: LockId): M.Lock { M.Lock(Word(l), View(ts, l)) }
  }

  function WaitSem(role: Role): Sem { if role.Producer? then Empty else Full }

  function PostSem(role: Role): Sem { if role.Producer? then Full else Empty }

  /** The lock a thread is using at its location. */
  function LockOf(th: Thread): Option<LockId> {
    match th.loc
    case WLock | WLoad | WStore(_) | WUnlockOk | WUnlockFail => Some(SemLock(WaitSem(th.role)))
    case QLock | QMove | QUnlock => Some(QueueLock)
    case PLock | PStore(_) | PUnlock => Some(SemLock(PostSem(th.role)))
    case _ => None
  }

  /** The threads' positions in one lock. */
  function View(ts: seq<Thread>, l: LockId): (r: seq<M.Pc>)
    ensures |r| == |ts|
  {
    seq(|ts|, i requires 0 <= i < |ts| => if LockOf(ts[i]) == Some(l) then ts[i].pc else M.Out)
  }

  /** The thread is about to perform one of the mutex's own operations. */
  predicate InLockCode(th: Thread) {
    th.pc.Cas? || th.pc.Xchg? || th.pc.Wait? || th.pc.Sub? || th.pc.Store? || th.pc.Wake?
  }

  predicate Sleeping(th: Thread) {
    th.pc.Asleep? || th.loc.WAsleep?
  }

  /** The threads with their positions in lock `l` replaced. */
  function WithView(ts: seq<Thread>, l: LockId, pcs: seq<M.Pc>): (r: seq<Thread>)
    requires |pcs| == |ts|
    ensures |r| == |ts|
  {
    seq(|ts|, i requires 0 <= i < |ts| => if LockOf(ts[i]) == Some(l) then ts[i].(pc := pcs[i]) else ts[i])
  }

  /** A step inside mutex_lock or mutex_unlock. */
  function LockStep(s: State, t: nat, l: LockId): State
    requires t < |s.ts|
  {
    var r := M.Next(s.LockState(l), t);
    s.WithWord(l, r.val).(ts := WithView(s.ts, l, r.pcs))
  }

  /** The lowest slot from `i` on that sleeps on the count of `m`. */
  function FirstWaiter(ts: seq<Thread>, m: Sem, i: nat): (k: nat)
    requires i <= |ts|
    ensures i <= k <= |ts|
    ensures forall j :: i <= j < k ==> !SleepsOn(ts[j], m)
    ensures k < |ts| ==> SleepsOn(ts[k], m)
    decreases |ts| - i
  {
    if i == |ts| || SleepsOn(ts[i], m) then i else FirstWaiter(ts, m, i + 1)
  }

  predicate SleepsOn(th: Thread, m: Sem) {
    th.loc.WAsleep? && WaitSem(th.role) == m
  }

  /** A woken waiter starts its sem_wait loop again. */
  function Woken(th: Thread): Thread {
    th.(loc := WLock, pc := M.Cas)
  }

  function WakeWaiter(ts: seq<Thread>, m: Sem): (r: seq<Thread>)
    ensures |r| == |ts|
  {
    var k := FirstWaiter(ts, m, 0);
    if k < |ts| then ts[k := Woken(ts[k])] else ts
  }

  /** The end of a round: the loop goes round again or the thread is done. */
  function NextRound(th: Thread): Thread {
    if th.left <= 1 then th.(loc := Done, pc := M.Out, left := 0)
    else th.(loc := WLock, pc := M.Cas, left := th.left - 1)
  }

  /** Where a thread outside the mutex code goes next. */
  function StepThread(s: State, th: Thread): Thread {
    match th.loc
    case WLock => if s.Count(WaitSem(th.role)) > 0 then th.(loc := WLoad) else th.(loc := WUnlockFail, pc := M.Sub)
    case WLoad => th.(loc := WStore(s.Count(WaitSem(th.role))))
    case WStore(_) => th.(loc := WUnlockOk, pc := M.Sub)
    case WUnlockOk => th.(loc := QLock, pc := M.Cas)
    case WUnlockFail => th.(loc := WFutex)
    case WFutex => if s.Count(WaitSem(th.role)) == 0 then th.(loc := WAsleep) else th.(loc := WLock, pc := M.Cas)
    case WAsleep => th
    case QLock => th.(loc := QMove)
    case QMove => th.(loc := QUnlock, pc := M.Sub)
    case QUnlock => th.(loc := PLock, pc := M.Cas)
    case PLock => th.(loc := PStore(s.Count(PostSem(th.role))))
    case PStore(_) => th.(loc := PUnlock, pc := M.Sub)
    case PUnlock => th.(loc := PWake)
    case PWake => NextRound(th)
    case Done => th
  }

  /** What it does to the shared counts and to the queue. */
  function StepShared(s: State, th: Thread, x: int): State {
    match th.loc
    case WStore(c) => s.WithCount(WaitSem(th.role), c - 1)
    case QLock =>
      if th.role.Producer?
      then s.(items := if s.tail < |s.items| then s.items[s.tail := x] else s.items, enqueued := s.enqueued + [x])
      else s.(dequeued := s.dequeued + [if s.head < |s.items| then s.items[s.head] else 0])
    case QMove =>
      if th.role.Producer? then s.(tail := (s.tail + 1) % QUEUE_SIZE) else s.(head := (s.head + 1) % QUEUE_SIZE)
    case PStore(c) => s.WithCount(PostSem(th.role), c + 1)
    case _ => s
  }

  /** A step outside the mutex code. */
  function ClientStep(s: State, t: nat, x: int): State
    requires t < |s.ts|
  {
    var th := s.ts[t];
    var ts := s.ts[t := StepThread(s, th)];
    StepShared(s, th, x).(ts := if th.loc.PWake? then WakeWaiter(ts, PostSem(th.role)) else ts)
  }

  /** Thread `t` takes one step; `x` is the value a producer stores if it gets to store one. */
  function Next(s: State, t: nat, x: int): (r: State)
    requires t < |s.ts|
    ensures |r.ts| == |s.ts|
  {
    var th := s.ts[t];
    if th.pc.Asleep? then s
    else if InLockCode(th) then (if LockOf(th).Some? then LockStep(s, t, LockOf(th).value) else s)
    else ClientStep(s, t, x)
  }

  // Thread shape

  /** Which mutex operations go with which location. */
  predicate WellPlaced(th: Thread) {
    && (th.left == 0 <==> th.loc.Done?)
    && match th.loc
       case WLock | QLock | PLock => th.pc.Cas? || th.pc.Xchg? || th.pc.Wait? || th.pc.Asleep? || th.pc.Held?
       case WLoad | WStore(_) | QMove | PStore(_) => th.pc.Held?
       case WUnlockOk | WUnlockFail | QUnlock | PUnlock => th.pc.Sub? || th.pc.Store? || th.pc.Wake? || th.pc.Out?
       case _ => th.pc.Out?
  }

  ghost predicate Placed(s: State) {
    && |s.items| == QUEUE_SIZE && s.head < QUEUE_SIZE && s.tail < QUEUE_SIZE
    && forall i :: 0 <= i < |s.ts| ==> WellPlaced(s.ts[i])
  }

  ghost predicate LocksOk(s: State) {
    forall l :: M.Inv(s.LockState(l))
  }

  /** A lock step moves lock `l` by one mutex step, leaves the other locks alone and keeps every thread's location. */
  lemma LockStepViews(s: State, t: nat, l: LockId)
    requires t < |s.ts| && LockOf(s.ts[t]) == Some(l) && !s.ts[t].pc.Out?
    ensures var r := LockStep(s, t, l);
            && r.LockState(l) == M.Next(s.LockState(l), t)
            && (forall l' :: l' != l ==> r.LockState(l') == s.LockState(l'))
            && (forall i :: 0 <= i < |s.ts| ==> r.ts[i] == s.ts[i].(pc := r.ts[i].pc))
            && (forall i :: 0 <= i < |s.ts| && i != t && r.ts[i].pc != s.ts[i].pc ==>
                              s.ts[i].pc.Asleep? && r.ts[i].pc.Xchg?)
  {
    var r, n := LockStep(s, t, l), M.Next(s.LockState(l), t);
    assert View(r.ts, l) == n.pcs;
    forall l' | l' != l ensures View(r.ts, l') == View(s.ts, l') {}
  }

  /** Lock `l` stays as it is or takes one mutex step of some thread. */
  ghost predicate LockMoves(s: State, r: State, l: LockId) {
    |r.ts| == |s.ts| &&
    (r.LockState(l) == s.LockState(l) ||
     exists u :: 0 <= u < |s.ts| && r.LockState(l) == M.Next(s.LockState(l), u))
  }

  /** Replacing one thread changes each lock's view at that thread only. */
  lemma ViewUpdate(ts: seq<Thread>, t: nat, th: Thread, l: LockId)
    requires t < |ts|
    ensures View(ts[t := th], l) == View(ts, l)[t := if LockOf(th) == Some(l) then th.pc else M.Out]
  {
  }

  /** A thread's position in lock `l`. */
  function PcIn(th: Thread, l: LockId): M.Pc {
    if LockOf(th) == Some(l) then th.pc else M.Out
  }

  predicate ClientMove(before: M.Pc, after: M.Pc) {
    after == before || (before.Out? && after.Cas?) || (before.Held? && after.Sub?)
  }

  lemma StepThreadMoves(s: State, th: Thread, l: LockId)
    requires WellPlaced(th) && !th.pc.Asleep? && !InLockCode(th)
    ensures WellPlaced(StepThread(s, th)) && ClientMove(PcIn(th, l), PcIn(StepThread(s, th), l))
  {
  }

  /** Moving one thread at most enters or leaves the lock. */
  lemma MoveOne(s: State, r: State, t: nat, th: Thread, l: LockId)
    requires t < |s.ts| && r.ts == s.ts[t := th] && r.Word(l) == s.Word(l)
    requires ClientMove(PcIn(s.ts[t], l), PcIn(th, l))
    ensures LockMoves(s, r, l)
  {
    ViewUpdate(s.ts, t, th, l);
    if PcIn(th, l) == PcIn(s.ts[t], l) {
      assert View(r.ts, l) == View(s.ts, l);
    } else {
      assert r.LockState(l) == M.Next(s.LockState(l), t);
    }
  }

  /** A step outside the mutex code enters or leaves at most one lock per thread it moves. */
  lemma ClientStepLocks(s: State, t: nat, x: int, l: LockId)
    requires t < |s.ts| && Placed(s) && !s.ts[t].pc.Asleep? && !InLockCode(s.ts[t])
    ensures LockMoves(s, ClientStep(s, t, x), l)
  {
    var th, r := s.ts[t], ClientStep(s, t, x);
    assert WellPlaced(th);
    StepThreadMoves(s, th, l);
    var mid := s.(ts := s.ts[t := StepThread(s, th)]);
    var post := PostSem(th.role);
    var k := FirstWaiter(mid.ts, post, 0);
    if th.loc.PWake? && k < |mid.ts| {
      assert k != t && WellPlaced(s.ts[k]);
      if l == SemLock(post) {
        ViewUpdate(s.ts, t, mid.ts[t], l);
        assert View(mid.ts, l) == View(s.ts, l);
        MoveOne(mid, r, k, Woken(mid.ts[k]), l);
        assert mid.LockState(l) == s.LockState(l);
      } else {
        MoveOne(s, mid, t, mid.ts[t], l);
        ViewUpdate(mid.ts, k, Woken(mid.ts[k]), l);
        assert View(r.ts, l) == View(mid.ts, l);
        assert r.LockState(l) == mid.LockState(l);
      }
    } else {
      MoveOne(s, r, t, StepThread(s, th), l);
    }
  }

  lemma LockStepPlaced(s: State, t: nat)
    requires t < |s.ts| && Placed(s) && InLockCode(s.ts[t])
    ensures Placed(LockStep(s, t, LockOf(s.ts[t]).value))
  {
    var l := LockOf(s.ts[t]).value;
    var r := LockStep(s, t, l);
    LockStepViews(s, t, l);
    assert r.ts[t].pc == M.Next(s.LockState(l), t).pcs[t];
    forall i | 0 <= i < |r.ts| ensures WellPlaced(r.ts[i]) { assert WellPlaced(s.ts[i]); }
  }

  lemma NextPlaced(s: State, t: nat, x: int)
    requires t < |s.ts| && Placed(s)
    ensures Placed(Next(s, t, x))
  {
    var th, r := s.ts[t], Next(s, t, x);
    assert WellPlaced(th);
    if !th.pc.Asleep? && InLockCode(th) {
      LockStepPlaced(s, t);
    } else if !th.pc.Asleep? {
      StepThreadMoves(s, th, QueueLock);
    }
  }

  lemma NextLocks(s: State, t: nat, x: int)
    requires t < |s.ts| && Placed(s) && LocksOk(s)
    ensures LocksOk(Next(s, t, x))
  {
    var th, r := s.ts[t], Next(s, t, x);
    assert WellPlaced(th);
    forall l ensures M.Inv(r.LockState(l)) {
      assert M.Inv(s.LockState(l));
      if th.pc.Asleep? {
      } else {
        if InLockCode(th) { LockStepViews(s, t, LockOf(th).value); } else { ClientStepLocks(s, t, x, l); }
        assert LockMoves(s, r, l);
        if r.LockState(l) != s.LockState(l) {
          var u :| 0 <= u < |s.ts| && r.LockState(l) == M.Next(s.LockState(l), u);
          M.NextExclusive(s.LockState(l), u);
          M.NextNotStranded(s.LockState(l), u);
        }
      }
    }
  }

  /** Two threads never both hold, or are both leaving, the same lock. */
  lemma OneHolder(s: State, i: nat, j: nat, l: LockId)
    requires LocksOk(s) && i < |s.ts| && j < |s.ts| && i != j
    requires LockOf(s.ts[i]) == Some(l) && LockOf(s.ts[j]) == Some(l) && s.ts[i].pc.Held?
    ensures !M.Owner(s.ts[j].pc)
  {
    var v := s.LockState(l);
    assert M.Inv(v);
    assert v.pcs[i] == s.ts[i].pc && v.pcs[j] == s.ts[j].pc;
  }

  // Sums over the threads

  function Sum(ts: seq<Thread>, w: Thread -> int): int {
    if ts == [] then 0 else Sum(ts[..|ts| - 1], w) + w(ts[|ts| - 1])
  }

  lemma {:induction false} SumUpdate(ts: seq<Thread>, t: nat, th: Thread, w: Thread -> int)
    requires t < |ts|
    ensures Sum(ts[t := th], w) == Sum(ts, w) - w(ts[t]) + w(th)
  {
    var n := |ts| - 1;
    if t < n {
      assert ts[t := th][..n] == ts[..n][t := th];
      SumUpdate(ts[..n], t, th, w);
    } else {
      assert ts[t := th][..n] == ts[..n];
    }
  }

  lemma {:induction false} SumSame(ts: seq<Thread>, us: seq<Thread>, w: Thread -> int)
    requires |us| == |ts| && forall i :: 0 <= i < |ts| ==> w(us[i]) == w(ts[i])
    ensures Sum(us, w) == Sum(ts, w)
  {
    if ts != [] { SumSame(ts[..|ts| - 1], us[..|us| - 1], w); }
  }

  /** Pointwise order carries over to sums, strictly if it is strict somewhere. */
  lemma {:induction false} SumOrder(ts: seq<Thread>, w: Thread -> int, v: Thread -> int)
    requires forall i :: 0 <= i < |ts| ==> w(ts[i]) <= v(ts[i])
    ensures Sum(ts, w) <= Sum(ts, v)
    ensures (exists i :: 0 <= i < |ts| && w(ts[i]) < v(ts[i])) ==> Sum(ts, w) < Sum(ts, v)
  {
    if ts != [] {
      var n := |ts| - 1;
      SumOrder(ts[..n], w, v);
      if i :| 0 <= i < |ts| && w(ts[i]) < v(ts[i]) {
        assert i < n ==> w(ts[..n][i]) < v(ts[..n][i]);
      }
    }
  }

  /** Between taking a token from one semaphore and giving it to the other. */
  function InFlight(th: Thread): int {
    if th.loc.WUnlockOk? || th.loc.QLock? || th.loc.QMove? || th.loc.QUnlock? || th.loc.PLock? || th.loc.PStore?
    then 1 else 0
  }

  /** Accounts for an item in the queue that the full count does not show. */
  function Unshown(th: Thread): int {
    if th.role.Producer?
    then (if th.loc.QMove? || th.loc.QUnlock? || th.loc.PLock? || th.loc.PStore? then 1 else 0)
    else (if th.loc.WUnlockOk? || th.loc.QLock? then 1 else 0)
  }

  /** Past the queue access of its current round. */
  predicate Accessed(th: Thread) {
    th.loc.QMove? || th.loc.QUnlock? || th.loc.PLock? || th.loc.PStore? || th.loc.PUnlock? || th.loc.PWake?
  }

  /** Queue accesses a thread of the given role has still to make. */
  function StillTo(role: Role): Thread -> int {
    (th: Thread) => if th.role == role then th.left - (if Accessed(th) then 1 else 0) else 0
  }

  /** A post on its way to waking a waiter of `m`, or a waiter of `m` that is not asleep on the count. */
  function Helps(m: Sem): Thread -> int {
    (th: Thread) =>
      if PostSem(th.role) == m then (if th.loc.PUnlock? || th.loc.PWake? then 1 else 0)
      else if th.loc.WLock? || th.loc.WLoad? || th.loc.WStore? || th.loc.WUnlockFail? || th.loc.WFutex? then 1 else 0
  }

  /** What a thread read under a semaphore's lock is still the count. */
  predicate RegisterOk(s: State, th: Thread) {
    match th.loc
    case WLoad => s.Count(WaitSem(th.role)) > 0
    case WStore(c) => c == s.Count(WaitSem(th.role)) && c > 0
    case PStore(c) => c == s.Count(PostSem(th.role))
    case _ => true
  }

  ghost predicate Registers(s: State) {
    forall i :: 0 <= i < |s.ts| ==> RegisterOk(s, s.ts[i])
  }

  /** empty count + full count + operations in flight = QUEUE_SIZE. */
  ghost predicate Conserved(s: State) {
    s.empty >= 0 && s.full >= 0 && s.empty + s.full + Sum(s.ts, InFlight) == QUEUE_SIZE
  }

  ghost predicate Occupied(s: State) {
    |s.enqueued| - |s.dequeued| == s.full + Sum(s.ts, Unshown)
  }

  /** With a sleeper on a semaphore, its count never exceeds the pending wakes plus the awake waiters. */
  ghost predicate Fed(s: State, m: Sem) {
    (exists i :: 0 <= i < |s.ts| && SleepsOn(s.ts[i], m)) ==> s.Count(m) <= Sum(s.ts, Helps(m))
  }

  ghost predicate Totals(s: State, produce: int, consume: int) {
    && Sum(s.ts, StillTo(Producer)) + |s.enqueued| == produce
    && Sum(s.ts, StillTo(Consumer)) + |s.dequeued| == consume
  }

  /** A sum that does not see a waiter being woken moves with the stepping thread alone. */
  lemma ClientSum(s: State, t: nat, x: int, w: Thread -> int)
    requires t < |s.ts| && Placed(s) && forall th: Thread :: th.loc.WAsleep? ==> w(Woken(th)) == w(th)
    ensures Sum(ClientStep(s, t, x).ts, w) == Sum(s.ts, w) - w(s.ts[t]) + w(StepThread(s, s.ts[t]))
  {
    var th := s.ts[t];
    var mid := s.ts[t := StepThread(s, th)];
    SumUpdate(s.ts, t, StepThread(s, th), w);
    if th.loc.PWake? {
      var k := FirstWaiter(mid, PostSem(th.role), 0);
      if k < |mid| { SumUpdate(mid, k, Woken(mid[k]), w); }
    }
  }

  /** A lock step changes lock words and mutex positions, nothing else. */
  lemma LockStepKeeps(s: State, t: nat, w: Thread -> int)
    requires t < |s.ts| && Placed(s) && InLockCode(s.ts[t])
    requires forall th: Thread, pc :: w(th.(pc := pc)) == w(th)
    ensures var r := Next(s, t, 0);
            && Sum(r.ts, w) == Sum(s.ts, w)
            && r == s.(emptyWord := r.emptyWord, fullWord := r.fullWord, queueWord := r.queueWord, ts := r.ts)
            && (forall i :: 0 <= i < |s.ts| ==> r.ts[i] == s.ts[i].(pc := r.ts[i].pc))
  {
    assert WellPlaced(s.ts[t]);
    LockStepViews(s, t, LockOf(s.ts[t]).value);
    SumSame(s.ts, Next(s, t, 0).ts, w);
  }

  /** One thread's step keeps its own register right, and another's unless both hold the lock. */
  lemma StepRegister(s: State, th: Thread, x: int, other: Thread)
    requires WellPlaced(th) && RegisterOk(s, th) && RegisterOk(s, other) && WellPlaced(other)
    requires !th.pc.Asleep? && !InLockCode(th)
    requires th.pc.Held? && other.pc.Held? ==> LockOf(th) != LockOf(other)
    ensures RegisterOk(StepShared(s, th, x), StepThread(s, th)) && RegisterOk(StepShared(s, th, x), other)
  {
  }

  lemma NextRegisters(s: State, t: nat, x: int)
    requires t < |s.ts| && Placed(s) && LocksOk(s) && Registers(s)
    ensures Registers(Next(s, t, x))
  {
    var th, r := s.ts[t], Next(s, t, x);
    assert WellPlaced(th) && RegisterOk(s, th);
    if !th.pc.Asleep? && InLockCode(th) {
      LockStepKeeps(s, t, InFlight);
      forall i | 0 <= i < |r.ts| ensures RegisterOk(r, r.ts[i]) { assert RegisterOk(s, s.ts[i]); }
    } else if !th.pc.Asleep? {
      forall i | 0 <= i < |r.ts| ensures RegisterOk(r, r.ts[i]) { ClientRegister(s, t, x, i); }
    }
  }

  lemma ClientRegister(s: State, t: nat, x: int, i: nat)
    requires t < |s.ts| && i < |s.ts| && Placed(s) && LocksOk(s) && Registers(s)
    requires !s.ts[t].pc.Asleep? && !InLockCode(s.ts[t])
    ensures var r := ClientStep(s, t, x); RegisterOk(r, r.ts[i])
  {
    var th, other := s.ts[t], s.ts[i];
    assert WellPlaced(th) && RegisterOk(s, th) && WellPlaced(other) && RegisterOk(s, other);
    if i == t {
      StepRegister(s, th, x, Thread(Producer, Done, M.Out, 0));
    } else {
      if th.pc.Held? && other.pc.Held? && LockOf(th) == LockOf(other) {
        OneHolder(s, i, t, LockOf(th).value);
      }
      StepRegister(s, th, x, other);
    }
  }

  /** The balance of one thread's step: tokens, items and rounds. */
  lemma StepBalance(s: State, th: Thread, x: int)
    requires WellPlaced(th) && RegisterOk(s, th) && !th.pc.Asleep? && !InLockCode(th)
    ensures var r, th' := StepShared(s, th, x), StepThread(s, th);
            && (s.empty >= 0 && s.full >= 0 ==> r.empty >= 0 && r.full >= 0)
            && r.empty + r.full + InFlight(th') == s.empty + s.full + InFlight(th)
            && |r.enqueued| - |r.dequeued| - r.full - Unshown(th') == |s.enqueued| - |s.dequeued| - s.full - Unshown(th)
            && |r.enqueued| + StillTo(Producer)(th') == |s.enqueued| + StillTo(Producer)(th)
            && |r.dequeued| + StillTo(Consumer)(th') == |s.dequeued| + StillTo(Consumer)(th)
  {
  }

  ghost predicate Balanced(s: State, produce: int, consume: int) {
    Conserved(s) && Occupied(s) && Totals(s, produce, consume)
  }

  lemma NextBalanced(s: State, t: nat, x: int, produce: int, consume: int)
    requires t < |s.ts| && Placed(s) && Registers(s) && Balanced(s, produce, consume)
    ensures Balanced(Next(s, t, x), produce, consume)
  {
    var th := s.ts[t];
    if !th.pc.Asleep? && InLockCode(th) {
      LockBalanced(s, t, produce, consume);
    } else if !th.pc.Asleep? {
      ClientBalanced(s, t, x, produce, consume);
    }
  }

  lemma LockBalanced(s: State, t: nat, produce: int, consume: int)
    requires t < |s.ts| && Placed(s) && Balanced(s, produce, consume) && InLockCode(s.ts[t])
    ensures Balanced(Next(s, t, 0), produce, consume)
  {
    hide Next, Placed;
    LockStepKeeps(s, t, InFlight);
    LockStepKeeps(s, t, Unshown);
    LockStepKeeps(s, t, StillTo(Producer));
    LockStepKeeps(s, t, StillTo(Consumer));
  }

  lemma ClientBalanced(s: State, t: nat, x: int, produce: int, consume: int)
    requires t < |s.ts| && Placed(s) && Registers(s) && Balanced(s, produce, consume)
    requires !s.ts[t].pc.Asleep? && !InLockCode(s.ts[t])
    ensures Balanced(Next(s, t, x), produce, consume)
  {
    hide StepThread, StepShared;
    var th := s.ts[t];
    assert WellPlaced(th) && RegisterOk(s, th);
    StepBalance(s, th, x);
    ClientSum(s, t, x, InFlight);
    ClientSum(s, t, x, Unshown);
    ClientSum(s, t, x, StillTo(Producer));
    ClientSum(s, t, x, StillTo(Consumer));
  }

  lemma {:induction false} HelpsNonNegative(ts: seq<Thread>, m: Sem)
    ensures Sum(ts, Helps(m)) >= 0
  {
    ZeroSum(ts);
    SumOrder(ts, _ => 0, Helps(m));
  }

  lemma {:induction false} ZeroSum(ts: seq<Thread>)
    ensures Sum(ts, _ => 0) == 0
  {
    if ts != [] { ZeroSum(ts[..|ts| - 1]); }
  }

  /** A thread's own step lets the count grow only by the wake it has become liable for, or goes to sleep at zero. */
  lemma StepHelps(s: State, th: Thread, x: int, m: Sem)
    requires WellPlaced(th) && RegisterOk(s, th) && !th.pc.Asleep? && !InLockCode(th) && !th.loc.PWake?
    ensures var r, th' := StepShared(s, th, x), StepThread(s, th);
            if SleepsOn(th', m) && !SleepsOn(th, m) then r.Count(m) == 0
            else r.Count(m) - s.Count(m) <= Helps(m)(th') - Helps(m)(th)
  {
  }

  /** The wake of a post: the sum loses the post and gains the waiter it woke. */
  lemma WakeSum(s: State, t: nat, x: int, m: Sem)
    requires t < |s.ts| && s.ts[t].loc.PWake?
    requires exists i :: 0 <= i < |s.ts| && SleepsOn(s.ts[i], PostSem(s.ts[t].role))
    ensures Sum(ClientStep(s, t, x).ts, Helps(m)) >= Sum(s.ts, Helps(m))
  {
    var th := s.ts[t];
    var mid := s.ts[t := NextRound(th)];
    var i :| 0 <= i < |s.ts| && SleepsOn(s.ts[i], PostSem(th.role));
    assert SleepsOn(mid[i], PostSem(th.role));
    var k := FirstWaiter(mid, PostSem(th.role), 0);
    assert ClientStep(s, t, x).ts == mid[k := Woken(mid[k])];
    SumUpdate(s.ts, t, NextRound(th), Helps(m));
    SumUpdate(mid, k, Woken(mid[k]), Helps(m));
    RoundHelps(th, mid[k], m);
  }

  lemma RoundHelps(th: Thread, waiter: Thread, m: Sem)
    requires th.loc.PWake? && SleepsOn(waiter, PostSem(th.role))
    ensures Helps(m)(NextRound(th)) + Helps(m)(Woken(waiter)) >= Helps(m)(th) + Helps(m)(waiter)
    ensures PostSem(th.role) != m ==>
              Helps(m)(NextRound(th)) >= Helps(m)(th) && Helps(m)(Woken(waiter)) >= Helps(m)(waiter)
  {
  }

  /** A post for the other semaphore does not lower the sum. */
  lemma OtherWakeSum(s: State, t: nat, x: int, m: Sem)
    requires t < |s.ts| && s.ts[t].loc.PWake? && PostSem(s.ts[t].role) != m
    ensures Sum(ClientStep(s, t, x).ts, Helps(m)) >= Sum(s.ts, Helps(m))
  {
    var th := s.ts[t];
    var mid := s.ts[t := NextRound(th)];
    var k := FirstWaiter(mid, PostSem(th.role), 0);
    assert ClientStep(s, t, x).ts == WakeWaiter(mid, PostSem(th.role));
    SumUpdate(s.ts, t, NextRound(th), Helps(m));
    if k < |mid| {
      SumUpdate(mid, k, Woken(mid[k]), Helps(m));
      RoundHelps(th, mid[k], m);
    }
  }

  lemma WakeHelps(s: State, t: nat, x: int, m: Sem)
    requires t < |s.ts| && s.ts[t].loc.PWake? && Fed(s, m)
    ensures Fed(ClientStep(s, t, x), m)
  {
    var r := ClientStep(s, t, x);
    if i :| 0 <= i < |r.ts| && SleepsOn(r.ts[i], m) {
      assert SleepsOn(s.ts[i], m);
      if PostSem(s.ts[t].role) == m { WakeSum(s, t, x, m); } else { OtherWakeSum(s, t, x, m); }
    }
  }

  lemma NextFed(s: State, t: nat, x: int, m: Sem)
    requires t < |s.ts| && Placed(s) && Registers(s) && Fed(s, m)
    ensures Fed(Next(s, t, x), m)
  {
    var th, r := s.ts[t], Next(s, t, x);
    assert WellPlaced(th) && RegisterOk(s, th);
    if th.pc.Asleep? {
    } else if InLockCode(th) {
      LockStepKeeps(s, t, Helps(m));
      if i :| 0 <= i < |r.ts| && SleepsOn(r.ts[i], m) { assert SleepsOn(s.ts[i], m); }
    } else if th.loc.PWake? {
      WakeHelps(s, t, x, m);
    } else {
      StepHelps(s, th, x, m);
      SumUpdate(s.ts, t, StepThread(s, th), Helps(m));
      HelpsNonNegative(r.ts, m);
      if i :| 0 <= i < |r.ts| && SleepsOn(r.ts[i], m) {
        assert i != t ==> SleepsOn(s.ts[i], m);
      }
    }
  }

  // The ring of items

  predicate Moving(th: Thread, role: Role) {
    th.role == role && th.loc.QMove?
  }

  /** An index is the number of accesses modulo the size, one behind while some thread is about to move it. */
  ghost predicate IndexOk(ts: seq<Thread>, role: Role, index: nat, accesses: nat) {
    if exists i :: 0 <= i < |ts| && Moving(ts[i], role)
    then accesses > 0 && index == (accesses - 1) % QUEUE_SIZE
    else index == accesses % QUEUE_SIZE
  }

  /** The unread items sit in the ring in order, and what came out is a prefix of what went in. */
  ghost predicate Fifo(s: State) {
    && s.dequeued <= s.enqueued && |s.enqueued| - |s.dequeued| <= QUEUE_SIZE
    && |s.items| == QUEUE_SIZE
    && forall k :: |s.dequeued| <= k < |s.enqueued| ==> s.items[k % QUEUE_SIZE] == s.enqueued[k]
  }

  ghost predicate Ring(s: State) {
    Fifo(s) && IndexOk(s.ts, Producer, s.tail, |s.enqueued|) && IndexOk(s.ts, Consumer, s.head, |s.dequeued|)
  }

  /** A thread at the queue access finds no other thread between access and index update. */
  lemma AloneAtTheQueue(s: State, t: nat, role: Role)
    requires t < |s.ts| && Placed(s) && LocksOk(s) && LockOf(s.ts[t]) == Some(QueueLock) && s.ts[t].pc.Held?
    ensures forall i :: 0 <= i < |s.ts| && i != t ==> !Moving(s.ts[i], role)
  {
    forall i | 0 <= i < |s.ts| && i != t ensures !Moving(s.ts[i], role) {
      assert WellPlaced(s.ts[i]);
      if s.ts[i].loc.QMove? { OneHolder(s, t, i, QueueLock); }
    }
  }

  /** A producer about to store finds room, and a consumer about to load finds an item. */
  lemma RoomAndItems(s: State, t: nat)
    requires t < |s.ts| && Conserved(s) && Occupied(s) && s.ts[t].loc.QLock?
    ensures s.ts[t].role.Producer? ==> |s.enqueued| - |s.dequeued| < QUEUE_SIZE
    ensures s.ts[t].role.Consumer? ==> |s.enqueued| - |s.dequeued| > 0
  {
    SumOrder(s.ts, Unshown, InFlight);
    ZeroSum(s.ts);
    SumOrder(s.ts, _ => 0, Unshown);
    if s.ts[t].role.Producer? {
      assert Unshown(s.ts[t]) < InFlight(s.ts[t]);
    } else {
      assert (_ => 0)(s.ts[t]) < Unshown(s.ts[t]);
    }
  }

  /** The slot a producer stores to holds no unread item. */
  lemma StoreHitsNoUnread(s: State, t: nat)
    requires t < |s.ts| && Placed(s) && LocksOk(s) && Conserved(s) && Occupied(s) && Ring(s)
    requires s.ts[t].loc.QLock? && s.ts[t].pc.Held? && s.ts[t].role.Producer?
    ensures s.tail == |s.enqueued| % QUEUE_SIZE
    ensures forall k :: |s.dequeued| <= k < |s.enqueued| ==> k % QUEUE_SIZE != s.tail
  {
    hide Placed, LocksOk, Conserved, Occupied;
    AloneAtTheQueue(s, t, Producer);
    RoomAndItems(s, t);
    assert !exists i :: 0 <= i < |s.ts| && Moving(s.ts[i], Producer);
    forall k | |s.dequeued| <= k < |s.enqueued| ensures k % QUEUE_SIZE != |s.enqueued| % QUEUE_SIZE {
      SlotsDiffer(k, 0, |s.enqueued| - k, QUEUE_SIZE);
    }
  }

  lemma ProducerStores(s: State, t: nat, x: int)
    requires t < |s.ts| && Placed(s) && LocksOk(s) && Conserved(s) && Occupied(s) && Ring(s)
    requires s.ts[t].loc.QLock? && s.ts[t].pc.Held? && s.ts[t].role.Producer?
    ensures Ring(ClientStep(s, t, x))
  {
    var r := ClientStep(s, t, x);
    StoreHitsNoUnread(s, t);
    RoomAndItems(s, t);
    assert Moving(r.ts[t], Producer);
    SameMovers(s.ts, r.ts, t, Consumer);
  }

  lemma ConsumerLoads(s: State, t: nat, x: int)
    requires t < |s.ts| && Placed(s) && LocksOk(s) && Conserved(s) && Occupied(s) && Ring(s)
    requires s.ts[t].loc.QLock? && s.ts[t].pc.Held? && s.ts[t].role.Consumer?
    ensures Ring(ClientStep(s, t, x))
  {
    var r := ClientStep(s, t, x);
    AloneAtTheQueue(s, t, Consumer);
    RoomAndItems(s, t);
    assert !exists i :: 0 <= i < |s.ts| && Moving(s.ts[i], Consumer);
    assert r.dequeued == s.dequeued + [s.enqueued[|s.dequeued|]];
    assert Moving(r.ts[t], Consumer);
    SameMovers(s.ts, r.ts, t, Producer);
  }

  lemma SameMovers(ts: seq<Thread>, us: seq<Thread>, t: nat, role: Role)
    requires |us| == |ts| && t < |ts| && Moving(us[t], role) == Moving(ts[t], role)
    requires forall i :: 0 <= i < |ts| && i != t ==> Moving(us[i], role) == Moving(ts[i], role)
    ensures (exists i :: 0 <= i < |us| && Moving(us[i], role)) <==> (exists i :: 0 <= i < |ts| && Moving(ts[i], role))
  {
    if i :| 0 <= i < |ts| && Moving(ts[i], role) { assert Moving(us[i], role); }
    if i :| 0 <= i < |us| && Moving(us[i], role) { assert Moving(ts[i], role); }
  }

  lemma NextIndex(n: nat)
    requires n > 0
    ensures ((n - 1) % QUEUE_SIZE + 1) % QUEUE_SIZE == n % QUEUE_SIZE
  {
  }

  lemma IndexMoves(s: State, t: nat, x: int)
    requires t < |s.ts| && Placed(s) && LocksOk(s) && Ring(s) && s.ts[t].loc.QMove? && s.ts[t].pc.Held?
    ensures Ring(ClientStep(s, t, x))
  {
    var th, r := s.ts[t], ClientStep(s, t, x);
    AloneAtTheQueue(s, t, th.role);
    assert Moving(s.ts[t], th.role);
    assert !exists i :: 0 <= i < |r.ts| && Moving(r.ts[i], th.role);
    if th.role.Producer? {
      NextIndex(|s.enqueued|);
      SameMovers(s.ts, r.ts, t, Consumer);
    } else {
      NextIndex(|s.dequeued|);
      SameMovers(s.ts, r.ts, t, Producer);
    }
  }

  /** A step that neither touches the ring nor moves a thread into or out of the index update keeps the ring. */
  lemma RingKept(s: State, r: State, t: nat)
    requires Ring(s) && t < |s.ts| == |r.ts|
    requires r.items == s.items && r.head == s.head && r.tail == s.tail
    requires r.enqueued == s.enqueued && r.dequeued == s.dequeued
    requires forall i :: 0 <= i < |s.ts| ==>
               (r.ts[i].loc.QMove? <==> s.ts[i].loc.QMove?) && r.ts[i].role == s.ts[i].role
    ensures Ring(r)
  {
    SameMovers(s.ts, r.ts, t, Producer);
    SameMovers(s.ts, r.ts, t, Consumer);
  }

  /** Away from the queue's critical section a step leaves the ring alone. */
  lemma StepElsewhere(s: State, t: nat, x: int)
    requires t < |s.ts| && !s.ts[t].loc.QLock? && !s.ts[t].loc.QMove?
    ensures var r := ClientStep(s, t, x);
            && r.items == s.items && r.head == s.head && r.tail == s.tail
            && r.enqueued == s.enqueued && r.dequeued == s.dequeued
            && forall i :: 0 <= i < |s.ts| ==>
                             (r.ts[i].loc.QMove? <==> s.ts[i].loc.QMove?) && r.ts[i].role == s.ts[i].role
  {
  }

  lemma NextRing(s: State, t: nat, x: int)
    requires t < |s.ts| && Placed(s) && LocksOk(s) && Conserved(s) && Occupied(s) && Ring(s)
    ensures Ring(Next(s, t, x))
  {
    var th, r := s.ts[t], Next(s, t, x);
    assert WellPlaced(th);
    if th.pc.Asleep? {
    } else if InLockCode(th) {
      LockStepKeeps(s, t, InFlight);
      RingKept(s, r, t);
    } else if th.loc.QLock? {
      if th.role.Producer? { ProducerStores(s, t, x); } else { ConsumerLoads(s, t, x); }
    } else if th.loc.QMove? {
      IndexMoves(s, t, x);
    } else {
      StepElsewhere(s, t, x);
      RingKept(s, r, t);
    }
  }

  // Whole runs

  ghost predicate Inv(s: State, produce: int, consume: int) {
    Placed(s) && LocksOk(s) && Registers(s) && Balanced(s, produce, consume) && Ring(s) && Fed(s, Empty) && Fed(s, Full)
  }

  lemma NextInv(s: State, t: nat, x: int, produce: int, consume: int)
    requires t < |s.ts| && Inv(s, produce, consume)
    ensures Inv(Next(s, t, x), produce, consume)
  {
    NextPlaced(s, t, x);
    NextLocks(s, t, x);
    NextRegisters(s, t, x);
    NextBalanced(s, t, x, produce, consume);
    NextRing(s, t, x);
    NextFed(s, t, x, Empty);
    NextFed(s, t, x, Full);
  }

  /** A thread before its first round. */
  function Fresh(role: Role, rounds: nat): Thread {
    if rounds == 0 then Thread(role, Done, M.Out, 0) else Thread(role, WLock, M.Cas, rounds)
  }

  /** `run_prod_cons_demo` before any thread has moved: both indices 0, eight tokens on `sem_empty`. */
  predicate IsInit(s: State) {
    && s.emptyWord == s.fullWord == s.queueWord == 0 && s.empty == QUEUE_SIZE && s.full == 0
    && |s.items| == QUEUE_SIZE && s.head == s.tail == 0 && s.enqueued == s.dequeued == []
    && forall i :: 0 <= i < |s.ts| ==> s.ts[i] == Fresh(s.ts[i].role, s.ts[i].left)
  }

  lemma InitInv(s: State)
    requires IsInit(s)
    ensures Inv(s, Sum(s.ts, StillTo(Producer)), Sum(s.ts, StillTo(Consumer)))
  {
    ZeroSum(s.ts);
    SumAllZero(s.ts, InFlight);
    SumAllZero(s.ts, Unshown);
    forall l ensures M.Inv(s.LockState(l)) {
      var v := s.LockState(l);
      assert forall i :: 0 <= i < |v.pcs| ==> v.pcs[i].Out? || v.pcs[i].Cas?;
    }
  }

  lemma {:induction false} SumAllZero(ts: seq<Thread>, w: Thread -> int)
    requires forall i :: 0 <= i < |ts| ==> w(ts[i]) == 0
    ensures Sum(ts, w) == 0
  {
    if ts != [] { SumAllZero(ts[..|ts| - 1], w); }
  }

  /** Any interleaving: at each point some thread moves, a producer with some value. */
  function Run(s: State, schedule: seq<(nat, int)>): (r: State)
    requires forall i :: 0 <= i < |schedule| ==> schedule[i].0 < |s.ts|
    ensures |r.ts| == |s.ts|
    decreases |schedule|
  {
    if schedule == [] then s
    else
      var n := |schedule| - 1;
      Next(Run(s, schedule[..n]), schedule[n].0, schedule[n].1)
  }

  lemma {:induction false} AlwaysInv(s: State, schedule: seq<(nat, int)>)
    requires IsInit(s) && forall i :: 0 <= i < |schedule| ==> schedule[i].0 < |s.ts|
    ensures Inv(Run(s, schedule), Sum(s.ts, StillTo(Producer)), Sum(s.ts, StillTo(Consumer)))
    decreases |schedule|
  {
    if schedule == [] {
      InitInv(s);
    } else {
      var n := |schedule| - 1;
      AlwaysInv(s, schedule[..n]);
      NextInv(Run(s, schedule[..n]), schedule[n].0, schedule[n].1,
              Sum(s.ts, StillTo(Producer)), Sum(s.ts, StillTo(Consumer)));
    }
  }

  /** In every interleaving values come out in the order they went in, and the tokens add up to the queue size. */
  lemma QueueIsFifo(s: State, schedule: seq<(nat, int)>)
    requires IsInit(s) && forall i :: 0 <= i < |schedule| ==> schedule[i].0 < |s.ts|
    ensures var r := Run(s, schedule);
            && r.dequeued <= r.enqueued && |r.enqueued| - |r.dequeued| <= QUEUE_SIZE
            && r.empty >= 0 && r.full >= 0 && r.empty + r.full + Sum(r.ts, InFlight) == QUEUE_SIZE
  {
    AlwaysInv(s, schedule);
  }

  // Progress

  predicate Stuck(s: State) {
    forall i :: 0 <= i < |s.ts| ==> s.ts[i].loc.Done? || Sleeping(s.ts[i])
  }

  /** When no thread can move, none sleeps on a mutex. */
  lemma NoneOnMutex(s: State)
    requires Placed(s) && LocksOk(s) && Stuck(s)
    ensures forall i :: 0 <= i < |s.ts| ==> s.ts[i].loc.Done? || s.ts[i].loc.WAsleep?
  {
    forall i | 0 <= i < |s.ts| ensures s.ts[i].loc.Done? || s.ts[i].loc.WAsleep? {
      assert WellPlaced(s.ts[i]);
      if s.ts[i].pc.Asleep? {
        var l := LockOf(s.ts[i]).value;
        var v := s.LockState(l);
        assert M.Inv(v) && v.pcs[i].Asleep?;
        forall j | 0 <= j < |v.pcs| ensures v.pcs[j].Out? || v.pcs[j].Asleep? { assert WellPlaced(s.ts[j]); }
        assert false;
      }
    }
  }

  /** A semaphore with a sleeper in a stuck state has no tokens. */
  lemma StuckSemaphore(s: State, m: Sem)
    requires Placed(s) && Fed(s, m) && s.Count(m) >= 0
    requires forall i :: 0 <= i < |s.ts| ==> s.ts[i].loc.Done? || s.ts[i].loc.WAsleep?
    requires exists i :: 0 <= i < |s.ts| && SleepsOn(s.ts[i], m)
    ensures s.Count(m) == 0
  {
    SumAllZero(s.ts, Helps(m));
  }

  /**
   No deadlock: if producers and consumers have the same number of rounds to
   make in all, then whenever no thread can move, all have finished.
   */
  lemma {:induction false} NoDeadlock(s: State, schedule: seq<(nat, int)>)
    requires IsInit(s) && forall i :: 0 <= i < |schedule| ==> schedule[i].0 < |s.ts|
    requires Sum(s.ts, StillTo(Producer)) == Sum(s.ts, StillTo(Consumer))
    requires Stuck(Run(s, schedule))
    ensures forall i :: 0 <= i < |s.ts| ==> Run(s, schedule).ts[i].loc.Done?
  {
    var r := Run(s, schedule);
    AlwaysInv(s, schedule);
    NoneOnMutex(r);
    SumAllZero(r.ts, InFlight);
    SumAllZero(r.ts, Unshown);
    if i :| 0 <= i < |r.ts| && !r.ts[i].loc.Done? {
      StuckSleeper(r, i, Sum(s.ts, StillTo(Producer)));
    }
  }

  /** A sleeper in a stuck state would owe an access that the other side cannot have failed to provide. */
  lemma StuckSleeper(r: State, i: nat, rounds: int)
    requires i < |r.ts| && Inv(r, rounds, rounds)
    requires forall j :: 0 <= j < |r.ts| ==> r.ts[j].loc.Done? || r.ts[j].loc.WAsleep?
    requires Sum(r.ts, InFlight) == 0 && Sum(r.ts, Unshown) == 0
    ensures r.ts[i].loc.Done?
  {
    if r.ts[i].loc.WAsleep? {
      var role := r.ts[i].role;
      var other := if role.Producer? then Consumer else Producer;
      assert WellPlaced(r.ts[i]);
      assert SleepsOn(r.ts[i], WaitSem(role));
      StuckSemaphore(r, WaitSem(role));
      if j :| 0 <= j < |r.ts| && SleepsOn(r.ts[j], WaitSem(other)) {
        StuckSemaphore(r, WaitSem(other));
        assert false;
      }
      forall j | 0 <= j < |r.ts| ensures StillTo(other)(r.ts[j]) == 0 {
        assert WellPlaced(r.ts[j]);
        assert !SleepsOn(r.ts[j], WaitSem(other));
      }
      assert (_ => 0)(r.ts[i]) < StillTo(role)(r.ts[i]);
      SumAllZero(r.ts, StillTo(other));
      forall j | 0 <= j < |r.ts| ensures StillTo(role)(r.ts[j]) >= 0 { assert WellPlaced(r.ts[j]); }
      ZeroSum(r.ts);
      SumOrder(r.ts, _ => 0, StillTo(role));
      assert false;
    }
  }
}
