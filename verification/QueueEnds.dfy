/**
 The producer-consumer demo of userland/src/threads.c comes to an end: under every
 scheduler each move of a thread brings the whole closer to it, so that after a
 bounded number of moves nobody can move, and then all the work is done.
 */
module QueueEnds {
  import opened Arith
  import opened Options
  import opened BoundedQueue
  import M = Mutex

  /**
   What moves are worth: `gap` more than the waiting that a mutex step can undo, `wake` more than all the locations
   that waiters can be sent back to, and `post` more than that for each thread.
   */
  datatype Scale = Scale(gap: nat, wake: nat, post: nat)

  predicate Fits(c: Scale, n: nat) {
    c.gap >= 2 * n + 8 && c.wake >= 24 * c.gap * n && c.post >= 2 * c.wake + 64 * c.gap
  }

  function ScaleFor(n: nat): (c: Scale)
    ensures Fits(c, n)
  {
    var gap := 2 * n + 8;
    Scale(gap, 24 * gap * n, 2 * (24 * gap * n) + 64 * gap)
  }

  /** Posts a thread has still to make. */
  function Posts(th: Thread): nat {
    if th.left > 0 && (th.loc.PUnlock? || th.loc.PWake?) then th.left - 1 else th.left
  }

  /** How far a location is from the post of its round, or from sleep if the semaphore has no token. */
  function Steps(th: Thread, count: int): nat {
    match th.loc
    case Done | WAsleep => 0
    case WFutex => if count == 0 then 1 else 19
    case WUnlockFail => (if count == 0 then 2 else 20) + M.Rank(th.pc)
    case PStore(_) => 1
    case PLock => if th.pc.Held? then 2 else 3
    case QUnlock => 4 + M.Rank(th.pc)
    case QMove => 8
    case QLock => if th.pc.Held? then 9 else 10
    case WUnlockOk => 11 + M.Rank(th.pc)
    case WStore(_) => 15
    case WLoad => 16
    case WLock => if th.pc.Held? then 17 else 18
    case PWake => 30
    case PUnlock => 31 + M.Rank(th.pc)
  }

  /** The word of the lock a thread is using. */
  function WordFor(s: State, th: Thread): int {
    match LockOf(th) case Some(l) => s.Word(l) case None => 0
  }

  function Times(n: nat, x: nat): nat { n * x }

  function Worth(s: State, th: Thread, c: Scale): nat {
    Times(Posts(th), c.post) + (if th.loc.PUnlock? || th.loc.PWake? then c.wake else 0) +
    Steps(th, s.Count(WaitSem(th.role))) * c.gap + M.Lag(th.pc, WordFor(s, th))
  }

  function Worths(s: State, c: Scale): (w: seq<nat>)
    ensures |w| == |s.ts|
  {
    seq(|s.ts|, i requires 0 <= i < |s.ts| => Worth(s, s.ts[i], c))
  }

  predicate CanMove(th: Thread) {
    !th.loc.Done? && !Sleeping(th)
  }

  // A step inside the mutex code

  /** The stepping thread. */
  lemma LockOwn(s: State, t: nat, l: LockId, c: Scale)
    requires t < |s.ts| && WellPlaced(s.ts[t]) && InLockCode(s.ts[t]) && LockOf(s.ts[t]) == Some(l) && c.gap >= 8
    ensures var r := LockStep(s, t, l);
            Worth(r, r.ts[t], c) + (if M.Rank(s.ts[t].pc) > 0 then c.gap else 1) <= Worth(s, s.ts[t], c)
  {
    hide Times;
    var r, th := LockStep(s, t, l), s.ts[t];
    LockStepViews(s, t, l);
    assert r.ts[t].pc == M.Next(s.LockState(l), t).pcs[t] && s.LockState(l).pcs[t] == th.pc;
    assert r.Word(l) == M.Next(s.LockState(l), t).val;
    assert r.ts[t] == th.(pc := r.ts[t].pc);
    assert r.Count(WaitSem(th.role)) == s.Count(WaitSem(th.role));
    PcMoves(s.LockState(l), t);
  }

  /** Where one mutex step takes its thread. */
  lemma PcMoves(l: M.Lock, t: nat)
    requires t < |l.pcs| && !l.pcs[t].Out? && !l.pcs[t].Asleep? && !l.pcs[t].Held?
    ensures var before, r := l.pcs[t], M.Next(l, t);
            if M.Rank(before) > 0 then M.Rank(r.pcs[t]) < M.Rank(before) && M.Lag(r.pcs[t], r.val) == 0
            else r.pcs[t].Held? || (M.Rank(r.pcs[t]) == 0 && M.Lag(r.pcs[t], r.val) < M.Lag(before, l.val))
  {
  }

  /** Every other thread. */
  lemma LockOthers(s: State, t: nat, l: LockId, c: Scale, i: nat)
    requires t < |s.ts| && i < |s.ts| && i != t && LockOf(s.ts[t]) == Some(l) && !s.ts[t].pc.Out?
    requires WellPlaced(s.ts[i]) && s.Word(l) in {0, 1, 2}
    ensures var r := LockStep(s, t, l);
            Worth(r, r.ts[i], c) <= Worth(s, s.ts[i], c) + if M.Rank(s.ts[t].pc) > 0 then 2 else 0
  {
    hide Times;
    var r, th := LockStep(s, t, l), s.ts[i];
    LockStepViews(s, t, l);
    assert r.ts[i] == th.(pc := r.ts[i].pc);
    assert r.Count(WaitSem(th.role)) == s.Count(WaitSem(th.role));
    if LockOf(th) == Some(l) {
      assert r.ts[i].pc == M.Next(s.LockState(l), t).pcs[i] && s.LockState(l).pcs[i] == th.pc;
      M.NextLag(s.LockState(l), t, i);
    } else {
      assert r.ts[i] == th;
      assert WordFor(r, th) == WordFor(s, th);
    }
  }

  lemma LockCounts(s: State, t: nat, c: Scale)
    requires t < |s.ts| && Placed(s) && LocksOk(s) && InLockCode(s.ts[t]) && Fits(c, |s.ts|)
    ensures SumOf(Worths(Next(s, t, 0), c)) < SumOf(Worths(s, c))
  {
    hide Worth, LockStep, LocksOk;
    assert WellPlaced(s.ts[t]);
    var l := LockOf(s.ts[t]).value;
    var r, e := Next(s, t, 0), if M.Rank(s.ts[t].pc) > 0 then 2 else 0;
    assert r == LockStep(s, t, l);
    LockWord(s, l);
    LockOwn(s, t, l, c);
    forall i | 0 <= i < |s.ts| && i != t ensures Worths(r, c)[i] <= Worths(s, c)[i] + e {
      LockOthers(s, t, l, c, i);
    }
    SumDrops(Worths(s, c), Worths(r, c), t, if e == 2 then c.gap else 1, e);
  }

  lemma LockWord(s: State, l: LockId)
    requires LocksOk(s)
    ensures s.Word(l) in {0, 1, 2}
  {
    assert M.Inv(s.LockState(l));
  }

  // A step outside it

  lemma TimesStep(n: nat, x: nat)
    requires n > 0
    ensures Times(n, x) == Times(n - 1, x) + x
  {
  }

  /** A post or a wake, which others can profit from. */
  predicate Gives(th: Thread) {
    th.loc.PStore? || th.loc.PWake?
  }

  /** What the step does to the counts: one token less at a wait, one more at a post. */
  lemma ClientCounts(s: State, th: Thread, x: int, m: Sem)
    requires RegisterOk(s, th) && s.Count(m) >= 0
    ensures var r := StepShared(s, th, x);
            && (!th.loc.PStore? && s.Count(m) == 0 ==> r.Count(m) == 0)
            && (forall l :: r.Word(l) == s.Word(l))
  {
  }

  /** The stepping thread. */
  lemma ClientOwn(s: State, th: Thread, x: int, c: Scale)
    requires WellPlaced(th) && RegisterOk(s, th) && CanMove(th) && !InLockCode(th) && c.gap >= 8
    requires s.empty >= 0 && s.full >= 0 && c.post >= 2 * c.wake + 64 * c.gap
    ensures var r, th' := StepShared(s, th, x), StepThread(s, th);
            Worth(r, th', c) + (if Gives(th) then c.wake + 1 else 1) <= Worth(s, th, c)
  {
    hide Times;
    var r := StepShared(s, th, x);
    ClientCounts(s, th, x, WaitSem(th.role));
    if th.loc.PStore? { TimesStep(th.left, c.post); }
  }

  /** Every other thread. */
  lemma ClientOthers(s: State, th: Thread, x: int, c: Scale, other: Thread)
    requires WellPlaced(other) && RegisterOk(s, th) && s.empty >= 0 && s.full >= 0
    ensures var r := StepShared(s, th, x);
            Worth(r, other, c) <= Worth(s, other, c) + if th.loc.PStore? then 24 * c.gap else 0
  {
    hide Times;
    ClientCounts(s, th, x, WaitSem(other.role));
    assert WordFor(StepShared(s, th, x), other) == WordFor(s, other);
  }

  lemma WokenWorth(s: State, th: Thread, c: Scale)
    requires WellPlaced(th) && th.loc.WAsleep? && c.gap >= 8
    ensures Worth(s, Woken(th), c) <= Worth(s, th, c) + 24 * c.gap
  {
    hide Times;
  }

  /** The threads after a client step: the stepping one, the waiter it woke, and the others as they were. */
  lemma ClientThreads(s: State, t: nat, x: int, i: nat)
    requires t < |s.ts| && i < |s.ts| && WellPlaced(s.ts[t]) && CanMove(s.ts[t]) && !InLockCode(s.ts[t])
    ensures var r := ClientStep(s, t, x);
            && r == StepShared(s, s.ts[t], x).(ts := r.ts) && |r.ts| == |s.ts|
            && (i == t ==> r.ts[i] == StepThread(s, s.ts[t]))
            && (i != t ==> r.ts[i] == s.ts[i] ||
                           (s.ts[t].loc.PWake? && s.ts[i].loc.WAsleep? && r.ts[i] == Woken(s.ts[i])))
  {
    hide StepShared;
  }

  lemma WorthOfThreads(s: State, ts: seq<Thread>, th: Thread, c: Scale)
    ensures Worth(s.(ts := ts), th, c) == Worth(s, th, c)
  {
    hide Times;
  }

  lemma ClientStepCounts(s: State, t: nat, x: int, c: Scale)
    requires t < |s.ts| && Placed(s) && Registers(s) && s.empty >= 0 && s.full >= 0 && Fits(c, |s.ts|)
    requires CanMove(s.ts[t]) && !InLockCode(s.ts[t])
    ensures SumOf(Worths(Next(s, t, x), c)) < SumOf(Worths(s, c))
  {
    hide Worth, ClientStep, StepShared, StepThread, RegisterOk, WellPlaced;
    var th, r := s.ts[t], Next(s, t, x);
    var mid, e := StepShared(s, th, x), if Gives(th) then 24 * c.gap else 0;
    assert WellPlaced(th) && RegisterOk(s, th) && r == ClientStep(s, t, x);
    ClientThreads(s, t, x, t);
    ClientOwn(s, th, x, c);
    WorthOfThreads(mid, r.ts, r.ts[t], c);
    forall i | 0 <= i < |s.ts| && i != t ensures Worths(r, c)[i] <= Worths(s, c)[i] + e {
      assert WellPlaced(s.ts[i]);
      ClientOther(s, t, x, c, i);
    }
    SumDrops(Worths(s, c), Worths(r, c), t, if Gives(th) then c.wake + 1 else 1, e);
  }

  lemma ClientOther(s: State, t: nat, x: int, c: Scale, i: nat)
    requires t < |s.ts| && i < |s.ts| && i != t && WellPlaced(s.ts[t]) && WellPlaced(s.ts[i])
    requires CanMove(s.ts[t]) && !InLockCode(s.ts[t]) && RegisterOk(s, s.ts[t])
    requires s.empty >= 0 && s.full >= 0 && c.gap >= 8
    ensures var r := ClientStep(s, t, x);
            && |r.ts| == |s.ts|
            && Worth(r, r.ts[i], c) <= Worth(s, s.ts[i], c) + if Gives(s.ts[t]) then 24 * c.gap else 0
  {
    hide Worth, ClientStep, StepShared, StepThread, RegisterOk, WellPlaced;
    var th, r, mid := s.ts[t], ClientStep(s, t, x), StepShared(s, s.ts[t], x);
    ClientThreads(s, t, x, i);
    ClientOthers(s, th, x, c, s.ts[i]);
    WorthOfThreads(mid, r.ts, r.ts[i], c);
    if r.ts[i] != s.ts[i] { WokenWorth(mid, s.ts[i], c); }
  }

  /** Whoever moves, the end comes closer. */
  lemma StepCounts(s: State, t: nat, x: int, c: Scale, produce: int, consume: int)
    requires t < |s.ts| && Inv(s, produce, consume) && CanMove(s.ts[t]) && Fits(c, |s.ts|)
    ensures SumOf(Worths(Next(s, t, x), c)) < SumOf(Worths(s, c))
  {
    hide Placed, LocksOk, Registers, Ring, Fed, Worths, Occupied, Totals;
    if InLockCode(s.ts[t]) {
      assert Next(s, t, x) == Next(s, t, 0);
      LockCounts(s, t, c);
    } else {
      ClientStepCounts(s, t, x, c);
    }
  }

  // Whole runs

  /** At each point of the schedule a thread moves that can. */
  ghost predicate Moves(s: State, schedule: seq<(nat, int)>)
    requires forall i :: 0 <= i < |schedule| ==> schedule[i].0 < |s.ts|
  {
    forall i :: 0 <= i < |schedule| ==> CanMove(Run(s, schedule[..i]).ts[schedule[i].0])
  }

  lemma {:induction false} RunCounts(s: State, schedule: seq<(nat, int)>, c: Scale)
    requires IsInit(s) && forall i :: 0 <= i < |schedule| ==> schedule[i].0 < |s.ts|
    requires Moves(s, schedule) && Fits(c, |s.ts|)
    ensures SumOf(Worths(Run(s, schedule), c)) + |schedule| <= SumOf(Worths(s, c))
    decreases |schedule|
  {
    hide Inv, Worths, CanMove, IsInit, Next, Fits;
    if schedule != [] {
      var n := |schedule| - 1;
      forall i | 0 <= i < n ensures schedule[..n][..i] == schedule[..i] {}
      RunCounts(s, schedule[..n], c);
      AlwaysInv(s, schedule[..n]);
      StepCounts(Run(s, schedule[..n]), schedule[n].0, schedule[n].1, c, Sum(s.ts, StillTo(Producer)),
                 Sum(s.ts, StillTo(Consumer)));
    }
  }

  /** All threads have returned, and everything that went into the queue has come out of it, in order. */
  ghost predicate Finished(s: State, rounds: int) {
    && (forall i :: 0 <= i < |s.ts| ==> s.ts[i].loc.Done?)
    && |s.enqueued| == rounds && s.dequeued == s.enqueued && s.empty == QUEUE_SIZE && s.full == 0
  }

  lemma FinishedIs(s: State, rounds: int)
    requires Inv(s, rounds, rounds) && forall i :: 0 <= i < |s.ts| ==> s.ts[i].loc.Done?
    ensures Finished(s, rounds)
  {
    hide LocksOk, Registers, Fed;
    forall i | 0 <= i < |s.ts| ensures StillTo(Producer)(s.ts[i]) == 0 && StillTo(Consumer)(s.ts[i]) == 0 {
      assert WellPlaced(s.ts[i]);
    }
    SumAllZero(s.ts, StillTo(Producer));
    SumAllZero(s.ts, StillTo(Consumer));
    SumAllZero(s.ts, InFlight);
    SumAllZero(s.ts, Unshown);
  }

  /**
   Under every scheduler the threads make no more than a fixed number of moves, and when none can move any more,
   all of them have returned and every item has been handed over.
   */
  lemma EveryRunFinishes(s: State, schedule: seq<(nat, int)>)
    requires IsInit(s) && forall i :: 0 <= i < |schedule| ==> schedule[i].0 < |s.ts|
    requires Sum(s.ts, StillTo(Producer)) == Sum(s.ts, StillTo(Consumer)) && Moves(s, schedule)
    ensures |schedule| <= SumOf(Worths(s, ScaleFor(|s.ts|)))
    ensures (exists i :: 0 <= i < |s.ts| && CanMove(Run(s, schedule).ts[i])) ||
            Finished(Run(s, schedule), Sum(s.ts, StillTo(Producer)))
  {
    hide Inv, Worths, IsInit, Next, Finished, Moves;
    RunCounts(s, schedule, ScaleFor(|s.ts|));
    if !exists i :: 0 <= i < |s.ts| && CanMove(Run(s, schedule).ts[i]) {
      NoDeadlock(s, schedule);
      AlwaysInv(s, schedule);
      FinishedIs(Run(s, schedule), Sum(s.ts, StillTo(Producer)));
    }
  }
}
