/**
 The three-state futex mutex of userland/include/synch.h, as a transition
 system over any number of threads with one step per atomic operation. A futex
 system call is one step: interrupts are off from entry to the sleep. The
 kernel wakes the sleeper in the lowest process-table slot.
 */
module Mutex {
  import opened Arith

  /** Where a thread stands with respect to one lock: the operation it is about to perform. */
  datatype Pc =
    | Out      // not using the lock
    | Cas      // mutex_lock: compare-exchange 0 to 1
    | Xchg     // mutex_lock: exchange with 2
    | Wait     // mutex_lock: FUTEX_WAIT for value 2
    | Asleep   // in the kernel, on the wait channel
    | Held     // in the critical section
    | Sub      // mutex_unlock: fetch-and-subtract 1
    | Store    // mutex_unlock: store 0
    | Wake     // mutex_unlock: FUTEX_WAKE one

  datatype Lock = Lock(val: int, pcs: seq<Pc>)

  predicate Owner(pc: Pc) {
    pc.Held? || pc.Sub? || pc.Store?
  }

  /** The lowest sleeping slot from `i` on. */
  function FirstAsleep(pcs: seq<Pc>, i: nat): (k: nat)
    requires i <= |pcs|
    ensures i <= k <= |pcs|
    ensures forall j :: i <= j < k ==> !pcs[j].Asleep?
    ensures k < |pcs| ==> pcs[k].Asleep?
    decreases |pcs| - i
  {
    if i == |pcs| || pcs[i].Asleep? then i else FirstAsleep(pcs, i + 1)
  }

  /** futex_wake(&val, 1): one sleeper goes back to its exchange. */
  function WakeOne(pcs: seq<Pc>): (r: seq<Pc>)
    ensures |r| == |pcs|
  {
    var k := FirstAsleep(pcs, 0);
    if k < |pcs| then pcs[k := Xchg] else pcs
  }

  /** Thread `t` takes its next step; a sleeping thread has none. */
  function Next(l: Lock, t: nat): (r: Lock)
    requires t < |l.pcs|
    ensures |r.pcs| == |l.pcs|
  {
    var at := (pc: Pc) => l.pcs[t := pc];
    match l.pcs[t]
    case Out => Lock(l.val, at(Cas))
    case Cas =>
      if l.val == 0 then Lock(1, at(Held)) else if l.val == 2 then Lock(l.val, at(Wait)) else Lock(l.val, at(Xchg))
    case Xchg => if l.val == 0 then Lock(2, at(Held)) else Lock(2, at(Wait))
    case Wait => if l.val == 2 then Lock(l.val, at(Asleep)) else Lock(l.val, at(Xchg))
    case Asleep => l
    case Held => Lock(l.val, at(Sub))
    case Sub => if l.val == 1 then Lock(0, at(Out)) else Lock(l.val - 1, at(Store))
    case Store => Lock(0, at(Wake))
    case Wake => Lock(l.val, WakeOne(at(Out)))
  }

  /** Mutual exclusion: one owner at most, and the word is zero exactly when there is none. */
  ghost predicate Exclusive(l: Lock) {
    && l.val in {0, 1, 2}
    && (forall i, j :: 0 <= i < j < |l.pcs| ==> !(Owner(l.pcs[i]) && Owner(l.pcs[j])))
    && (l.val == 0 <==> forall i :: 0 <= i < |l.pcs| ==> !Owner(l.pcs[i]))
  }

  /** Some thread is bound to wake a sleeper or to store 2. */
  predicate Rescues(pc: Pc) {
    pc.Store? || pc.Wake? || pc.Xchg?
  }

  /** A sleeper is never stranded. */
  ghost predicate NotStranded(l: Lock) {
    (exists i :: 0 <= i < |l.pcs| && l.pcs[i].Asleep?) ==>
      l.val == 2 || exists j :: 0 <= j < |l.pcs| && Rescues(l.pcs[j])
  }

  ghost predicate Inv(l: Lock) {
    Exclusive(l) && NotStranded(l)
  }

  lemma NextExclusive(l: Lock, t: nat)
    requires Exclusive(l) && t < |l.pcs|
    ensures Exclusive(Next(l, t))
  {
    hide Next, Owner;
    var r := Next(l, t);
    if Owner(l.pcs[t]) { assert l.val != 0; }
    NextOwners(l, t);
    if r.val != 0 && !Owner(r.pcs[t]) {
      var o :| 0 <= o < |l.pcs| && Owner(l.pcs[o]);
      assert Owner(r.pcs[o]);
    }
  }

  /** What a step does to ownership: only the stepping thread's changes, and only together with the word. */
  lemma NextOwners(l: Lock, t: nat)
    requires t < |l.pcs| && l.val in {0, 1, 2} && (Owner(l.pcs[t]) ==> l.val != 0)
    ensures var r := Next(l, t);
            && r.val in {0, 1, 2}
            && (forall i :: 0 <= i < |l.pcs| && i != t ==> (Owner(r.pcs[i]) <==> Owner(l.pcs[i])))
            && (Owner(r.pcs[t]) ==> r.val != 0 && (Owner(l.pcs[t]) || l.val == 0))
            && (!Owner(r.pcs[t]) && Owner(l.pcs[t]) ==> r.val == 0)
            && (!Owner(r.pcs[t]) && !Owner(l.pcs[t]) ==> (r.val == 0 <==> l.val == 0))
  {
  }

  lemma NextNotStranded(l: Lock, t: nat)
    requires Inv(l) && t < |l.pcs|
    ensures NotStranded(Next(l, t))
  {
    var r := Next(l, t);
    if i :| 0 <= i < |r.pcs| && r.pcs[i].Asleep? {
      if l.pcs[t].Wake? {
        var k := FirstAsleep(l.pcs[t := Out], 0);
        assert l.pcs[t := Out][i].Asleep?;
        assert Rescues(r.pcs[k]);
      } else if l.pcs[t].Sub? || l.pcs[t].Store? {
        assert l.pcs[i].Asleep?;
        if !Rescues(r.pcs[t]) {
          var j :| 0 <= j < |l.pcs| && Rescues(l.pcs[j]);
          assert Rescues(r.pcs[j]);
        }
      } else if r.val != 2 {
        assert l.pcs[i].Asleep? && !Rescues(l.pcs[t]);
        var j :| 0 <= j < |l.pcs| && Rescues(l.pcs[j]);
        assert Rescues(r.pcs[j]);
      }
    }
  }

  /** Any interleaving: the threads take steps in the order of the schedule. */
  function Run(l: Lock, schedule: seq<nat>): (r: Lock)
    requires forall i :: 0 <= i < |schedule| ==> schedule[i] < |l.pcs|
    ensures |r.pcs| == |l.pcs|
    decreases |schedule|
  {
    if schedule == [] then l else Next(Run(l, schedule[..|schedule| - 1]), schedule[|schedule| - 1])
  }

  /** `mutex_init`, with `n` threads elsewhere. */
  function Init(n: nat): Lock {
    Lock(0, seq(n, _ => Out))
  }

  lemma {:induction false} AlwaysInv(n: nat, schedule: seq<nat>)
    requires forall i :: 0 <= i < |schedule| ==> schedule[i] < n
    ensures Inv(Run(Init(n), schedule))
    decreases |schedule|
  {
    if schedule != [] {
      var before := schedule[..|schedule| - 1];
      AlwaysInv(n, before);
      NextExclusive(Run(Init(n), before), schedule[|schedule| - 1]);
      NextNotStranded(Run(Init(n), before), schedule[|schedule| - 1]);
    }
  }

  /** In no run can all threads have left the lock or be asleep on it, with one of them asleep. */
  lemma NobodyStranded(n: nat, schedule: seq<nat>)
    requires forall i :: 0 <= i < |schedule| ==> schedule[i] < n
    requires var pcs := Run(Init(n), schedule).pcs; forall i :: 0 <= i < |pcs| ==> pcs[i].Out? || pcs[i].Asleep?
    ensures forall i :: 0 <= i < n ==> Run(Init(n), schedule).pcs[i].Out?
  {
    AlwaysInv(n, schedule);
  }

  // Progress

  /** How far a thread is from getting the lock; a waiter that finds the word changed goes back to its exchange. */
  function Lag(pc: Pc, val: int): nat {
    match pc
    case Cas => 5
    case Wait => if val == 2 then 2 else 4
    case Xchg => 3
    case Asleep => 1
    case _ => 0
  }

  /** The steps a thread has before it, each worth more than all that it can undo for the others. */
  function Weight(pc: Pc, val: int, gap: nat): nat {
    match pc
    case Out => 0
    case Wake => gap
    case Store => 2 * gap
    case Sub => 3 * gap
    case Held => 4 * gap
    case _ => 5 * gap + Lag(pc, val)
  }

  function Gap(l: Lock): nat { 2 * |l.pcs| + 6 }

  function Weights(l: Lock): (w: seq<nat>)
    ensures |w| == |l.pcs|
  {
    seq(|l.pcs|, i requires 0 <= i < |l.pcs| => Weight(l.pcs[i], l.val, Gap(l)))
  }

  /** The place of a thread in its unlock. */
  function Rank(pc: Pc): nat {
    match pc
    case Sub => 3
    case Store => 2
    case Wake => 1
    case _ => 0
  }

  /** What a step does to the waiting of the others: a change of the word from 2 or a wake sends them back a little. */
  lemma NextLag(l: Lock, t: nat, i: nat)
    requires t < |l.pcs| && i < |l.pcs| && i != t && l.val in {0, 1, 2}
    ensures var r := Next(l, t);
            && (r.pcs[i] == l.pcs[i] || (l.pcs[t].Wake? && l.pcs[i].Asleep? && r.pcs[i].Xchg?))
            && Lag(r.pcs[i], r.val) <= Lag(l.pcs[i], l.val) + if Rank(l.pcs[t]) > 0 then 2 else 0
  {
  }

  /** Every step of a thread that wants the lock or has it brings the whole closer to rest. */
  lemma StepSettles(l: Lock, t: nat)
    requires Exclusive(l) && t < |l.pcs| && !l.pcs[t].Out? && !l.pcs[t].Asleep?
    ensures SumOf(Weights(Next(l, t))) < SumOf(Weights(l))
  {
    hide Next, Exclusive;
    var r, gap := Next(l, t), Gap(l);
    var e := if Rank(l.pcs[t]) > 0 then 2 else 0;
    assert l.val in {0, 1, 2} by { WordOk(l); }
    forall i | 0 <= i < |l.pcs| && i != t ensures Weights(r)[i] <= Weights(l)[i] + e {
      NextLag(l, t, i);
    }
    OwnStep(l, t, gap);
    SumDrops(Weights(l), Weights(r), t, if e == 2 then gap else 1, e);
  }

  lemma WordOk(l: Lock)
    requires Exclusive(l)
    ensures l.val in {0, 1, 2}
  {
  }

  lemma OwnStep(l: Lock, t: nat, gap: nat)
    requires t < |l.pcs| && !l.pcs[t].Out? && !l.pcs[t].Asleep? && gap >= 6
    ensures var r := Next(l, t);
            Weight(r.pcs[t], r.val, gap) + (if Rank(l.pcs[t]) > 0 then gap else 1) <= Weight(l.pcs[t], l.val, gap)
  {
  }

  /** No thread enters the lock anew, and each step is made by one that can. */
  ghost predicate Busy(l: Lock, schedule: seq<nat>)
    requires forall i :: 0 <= i < |schedule| ==> schedule[i] < |l.pcs|
  {
    forall i :: 0 <= i < |schedule| ==>
                  var pc := Run(l, schedule[..i]).pcs[schedule[i]]; !pc.Out? && !pc.Asleep?
  }

  lemma {:induction false} BusySettles(l: Lock, schedule: seq<nat>)
    requires Exclusive(l) && forall i :: 0 <= i < |schedule| ==> schedule[i] < |l.pcs|
    requires Busy(l, schedule)
    ensures Exclusive(Run(l, schedule)) && SumOf(Weights(Run(l, schedule))) + |schedule| <= SumOf(Weights(l))
    decreases |schedule|
  {
    hide Exclusive, Next, Weights;
    if schedule != [] {
      var n := |schedule| - 1;
      forall i | 0 <= i < n ensures schedule[..n][..i] == schedule[..i] {}
      BusySettles(l, schedule[..n]);
      NextExclusive(Run(l, schedule[..n]), schedule[n]);
      StepSettles(Run(l, schedule[..n]), schedule[n]);
    }
  }

  /**
   Without new calls the threads in the lock run out of steps, whatever the order, and when they have, all are out:
   every call of `mutex_lock` that was made has been served.
   */
  lemma EveryCallServed(n: nat, before: seq<nat>, schedule: seq<nat>)
    requires forall i :: 0 <= i < |before| ==> before[i] < n
    requires forall i :: 0 <= i < |schedule| ==> schedule[i] < n
    requires Busy(Run(Init(n), before), schedule)
    ensures |schedule| <= SumOf(Weights(Run(Init(n), before)))
    ensures var pcs := Run(Run(Init(n), before), schedule).pcs;
            (forall i :: 0 <= i < n ==> pcs[i].Out? || pcs[i].Asleep?) ==> forall i :: 0 <= i < n ==> pcs[i].Out?
  {
    hide Weights, Next;
    AlwaysInv(n, before);
    BusySettles(Run(Init(n), before), schedule);
    RunRun(Init(n), before, schedule);
    if forall i :: 0 <= i < n ==> Run(Run(Init(n), before), schedule).pcs[i].Out? ||
                                  Run(Run(Init(n), before), schedule).pcs[i].Asleep? {
      NobodyStranded(n, before + schedule);
    }
  }

  lemma {:induction false} RunRun(l: Lock, a: seq<nat>, b: seq<nat>)
    requires forall i :: 0 <= i < |a| ==> a[i] < |l.pcs|
    requires forall i :: 0 <= i < |b| ==> b[i] < |l.pcs|
    ensures Run(l, a + b) == Run(Run(l, a), b)
    decreases |b|
  {
    hide Next;
    if b == [] {
      assert a + b == a;
    } else {
      RunRun(l, a, b[..|b| - 1]);
      assert (a + b)[..|a + b| - 1] == a + b[..|b| - 1];
    }
  }

  /** With nobody else around, lock and unlock take one atomic operation each and no system call. */
  lemma Uncontended(l: Lock, t: nat)
    requires t < |l.pcs| && l.val == 0 && l.pcs[t].Cas?
    ensures var held := Next(l, t);
            var sub := Next(held, t);
            held.pcs[t].Held? && held.val == 1 && sub.pcs[t].Sub? && Next(sub, t) == Lock(0, l.pcs[t := Out])
  {
  }

  /** A contended lock goes through 1 to 0 before the lowest sleeper is woken. */
  lemma Contended(l: Lock, t: nat, k: nat)
    requires t < |l.pcs| && l.val == 2 && l.pcs[t].Sub?
    requires k < |l.pcs| && l.pcs[k].Asleep? && forall i :: 0 <= i < k ==> !l.pcs[i].Asleep?
    ensures var one := Next(l, t);
            var free := Next(one, t);
            && one == Lock(1, l.pcs[t := Store]) && free == Lock(0, l.pcs[t := Wake])
            && Next(free, t) == Lock(0, l.pcs[t := Out][k := Xchg])
  {
    var one := Next(l, t);
    assert one.pcs[t := Wake] == l.pcs[t := Wake] && l.pcs[t := Wake][t := Out] == l.pcs[t := Out];
    var j := FirstAsleep(l.pcs[t := Out], 0);
    assert l.pcs[t := Out][k].Asleep? && j <= k;
    assert j == k;
  }

  /** A newcomer marks the lock as contended, once, before it waits. */
  lemma Newcomer(l: Lock, t: nat)
    requires t < |l.pcs| && l.val in {1, 2} && l.pcs[t].Cas?
    ensures Next(l, t).val == l.val && (Next(l, t).pcs[t].Wait? <==> l.val == 2)
    ensures l.val == 1 ==> Next(Next(l, t), t) == Lock(2, l.pcs[t := Wait])
  {
  }

  /** A FUTEX_WAKE that reaches a sleeper of another process, on the same address there: none of these threads wakes. */
  function StolenWake(l: Lock, t: nat): (r: Lock)
    requires t < |l.pcs|
    ensures |r.pcs| == |l.pcs|
  {
    l.(pcs := l.pcs[t := Out])
  }

  /** With every other thread out or asleep, a wake that goes elsewhere strands exactly the case of some sleeper. */
  lemma StolenWakeStrands(l: Lock, t: nat)
    requires Inv(l) && t < |l.pcs| && l.pcs[t].Wake?
    requires forall i :: 0 <= i < |l.pcs| && i != t ==> l.pcs[i].Out? || l.pcs[i].Asleep?
    ensures NotStranded(StolenWake(l, t)) <==> forall i :: 0 <= i < |l.pcs| ==> !l.pcs[i].Asleep?
  {
    var r := StolenWake(l, t);
    forall i | 0 <= i < |l.pcs| ensures !Owner(l.pcs[i]) && !Rescues(r.pcs[i]) {}
    if i :| 0 <= i < |l.pcs| && l.pcs[i].Asleep? { assert r.pcs[i].Asleep?; }
  }
}
