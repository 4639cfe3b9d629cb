/**
 Timers over whole runs (kernel/process/process.c, kernel/syscall/syscall.c): a
 process that sleeps for `n` ticks is asleep for exactly that many if it is left
 alone, and never returns from its sleep if it is not.
 */
module SleepRuns {
  import opened Processes
  import opened FutexRuns

  /** Slot `p` sleeps on its timer alone, with `n` ticks to go. */
  predicate Slumbers(p: Process, n: nat) {
    p.active && p.state.Sleeping? && p.waitChannel == 0 && p.sleepTicks == n
  }

  /** What may happen while slot `j` sleeps: it does nothing itself, and nothing ends it or makes it ready. */
  predicate LetsSleep(s: Sys, e: Event, j: nat)
    requires Shaped(s) && j < MAX_PROCESSES
  {
    (s.current == j ==> e.TickEvent?) && !Disturbs(s, e, j) && Apply(s, e).table[j].active
  }

  function TicksIn(events: seq<Event>): nat {
    if events == [] then 0
    else TicksIn(events[..|events| - 1]) + if events[|events| - 1].TickEvent? then 1 else 0
  }

  /** Going to sleep. */
  lemma FallsAsleep(s: Sys, ticks: nat)
    requires Shaped(s) && s.table[s.current].active && s.table[s.current].waitChannel == 0
    ensures Slumbers(Apply(s, SleepEvent(ticks)).table[s.current], ticks)
  {
  }

  /** A tick takes one from the timer, and at its last the process is awake. */
  lemma SleeperTicks(s: Sys, j: nat, n: nat)
    requires Shaped(s) && j < MAX_PROCESSES && n > 0 && Slumbers(s.table[j], n) && !Disturbs(s, TickEvent, j)
    ensures if n > 1 then Slumbers(Tick(s).table[j], n - 1)
            else var p := Tick(s).table[j]; p.active && p.sleepTicks == 0 && (p.state.Ready? || p.state.Running?)
  {
    hide NextReady, Select;
    var table := Preempted(s.table, s.current);
    if n > 1 { SleeperSelected(table, s.current, j); }
  }

  lemma SleeperStep(s: Sys, e: Event, j: nat, n: nat)
    requires Shaped(s) && j < MAX_PROCESSES && n > 0 && Slumbers(s.table[j], n) && LetsSleep(s, e, j) && !e.TickEvent?
    ensures Slumbers(Apply(s, e).table[j], n)
  {
    hide FutexWake, FindPid;
    match e
    case ExitEvent(code) =>
      StillAsleep(s.table, s.table[s.current].clearChildTid, 1, j, n);
      FutexWakeIdentity(s.table, s.table[s.current].clearChildTid, 1);
    case FutexWakeEvent(addr, count) => StillAsleep(s.table, addr, count, j, n);
    case _ =>
  }

  lemma StillAsleep(table: seq<Process>, addr: nat, count: int, j: nat, n: nat)
    requires j < |table| && Slumbers(table[j], n)
    ensures FutexWake(table, addr, count)[j] == table[j]
  {
    if addr != 0 && count > 0 { WakesFirstWaiters(table, addr, count, 0, j); }
  }

  ghost predicate SleepsThrough(s: Sys, events: seq<Event>, j: nat)
    requires Shaped(s) && j < MAX_PROCESSES
  {
    forall i: nat :: i < |events| ==> LetsSleep(Run(s, events[..i]), events[i], j)
  }

  /** While fewer than `n` ticks have passed the process sleeps, with the rest to go. */
  lemma {:induction false} StillToGo(s: Sys, events: seq<Event>, j: nat, n: nat)
    requires Shaped(s) && j < MAX_PROCESSES && Slumbers(s.table[j], n)
    requires SleepsThrough(s, events, j) && TicksIn(events) < n
    ensures Slumbers(Run(s, events).table[j], n - TicksIn(events))
    decreases |events|
  {
    hide Apply, Slumbers, LetsSleep;
    if events != [] {
      var k := |events| - 1;
      forall i: nat | i < k ensures LetsSleep(Run(s, events[..k][..i]), events[..k][i], j) {
        assert events[..k][..i] == events[..i];
      }
      StillToGo(s, events[..k], j, n);
      assert LetsSleep(Run(s, events[..k]), events[k], j);
      AsleepAfter(Run(s, events[..k]), events[k], j, n - TicksIn(events[..k]));
    }
  }

  lemma AsleepAfter(s: Sys, e: Event, j: nat, n: nat)
    requires Shaped(s) && j < MAX_PROCESSES && n > 0 && Slumbers(s.table[j], n) && LetsSleep(s, e, j)
    requires e.TickEvent? ==> n > 1
    ensures Slumbers(Apply(s, e).table[j], if e.TickEvent? then n - 1 else n)
  {
    hide Tick;
    if e.TickEvent? { SleeperTicks(s, j, n); } else { SleeperStep(s, e, j, n); }
  }

  /** At the `n`th tick it is awake. */
  lemma WakesOnTime(s: Sys, events: seq<Event>, j: nat, n: nat)
    requires Shaped(s) && j < MAX_PROCESSES && n > 0 && Slumbers(s.table[j], n)
    requires SleepsThrough(s, events, j) && TicksIn(events) == n - 1 && !Disturbs(Run(s, events), TickEvent, j)
    ensures Slumbers(Run(s, events).table[j], 1)
    ensures var p := Tick(Run(s, events)).table[j];
            p.active && p.sleepTicks == 0 && (p.state.Ready? || p.state.Running?)
  {
    hide Run, Tick, Disturbs;
    StillToGo(s, events, j, n);
    SleeperTicks(Run(s, events), j, 1);
  }

  // Disturbed sleep

  /** Slot `p` can run before its time, so that no tick counts for it, and the loop of `nanosleep` goes on. */
  predicate Overslept(p: Process) {
    p.active && !p.state.Sleeping? && p.sleepTicks > 0
  }

  /** Whatever makes a sleeper ready early has this effect: a child's end, or the fall-back to slot 0. */
  lemma DisturbedOversleeps(s: Sys, e: Event, j: nat, n: nat)
    requires Shaped(s) && j < MAX_PROCESSES && n > 0 && Slumbers(s.table[j], n) && Disturbs(s, e, j)
    requires (s.current == j ==> e.TickEvent?) && Apply(s, e).table[j].active
    ensures Overslept(Apply(s, e).table[j])
  {
    hide FutexWake, NextReady;
    match e
    case TickEvent =>
      var table := Preempted(s.table, s.current);
      if CanRun(table[0]) { ScanStopsBefore(table, s.current, 1, 0); }
      SleeperSelected(table, s.current, 0);
    case ExitEvent(code) =>
      StillAsleep(s.table, s.table[s.current].clearChildTid, 1, j, n);
      FutexWakeIdentity(s.table, s.table[s.current].clearChildTid, 1);
    case KillEvent(pid, sig) =>
  }

  /** What may happen while slot `j` is in its loop: when it is the current one, nothing but a tick. */
  predicate InLoop(s: Sys, e: Event, j: nat)
    requires Shaped(s) && j < MAX_PROCESSES
  {
    (s.current == j ==> e.TickEvent?) && Apply(s, e).table[j].active
  }

  lemma OversleptStep(s: Sys, e: Event, j: nat)
    requires Shaped(s) && j < MAX_PROCESSES && Overslept(s.table[j]) && InLoop(s, e, j)
    ensures Overslept(Apply(s, e).table[j]) && Apply(s, e).table[j].sleepTicks == s.table[j].sleepTicks
  {
    hide FutexWake, Select;
    match e
    case ExitEvent(code) =>
      AwakeStays(s.table, s.table[s.current].clearChildTid, 1, j);
      FutexWakeIdentity(s.table, s.table[s.current].clearChildTid, 1);
    case FutexWakeEvent(addr, count) => AwakeStays(s.table, addr, count, j);
    case _ =>
  }

  lemma AwakeStays(table: seq<Process>, addr: nat, count: int, j: nat)
    requires j < |table| && !table[j].state.Sleeping?
    ensures FutexWake(table, addr, count)[j] == table[j]
  {
    if addr != 0 && count > 0 { WakesFirstWaiters(table, addr, count, 0, j); }
  }

  /** It stays in its loop for as long as it lives. */
  lemma {:induction false} OversleepsForEver(s: Sys, events: seq<Event>, j: nat)
    requires Shaped(s) && j < MAX_PROCESSES && Overslept(s.table[j])
    requires forall i: nat :: i < |events| ==> InLoop(Run(s, events[..i]), events[i], j)
    ensures Overslept(Run(s, events).table[j]) && Run(s, events).table[j].sleepTicks == s.table[j].sleepTicks
    decreases |events|
  {
    hide Apply, Overslept, InLoop;
    if events != [] {
      var k := |events| - 1;
      forall i: nat | i < k ensures InLoop(Run(s, events[..k][..i]), events[..k][i], j) {
        assert events[..k][..i] == events[..i];
      }
      OversleepsForEver(s, events[..k], j);
      assert InLoop(Run(s, events[..k]), events[k], j);
      OversleptStep(Run(s, events[..k]), events[k], j);
    }
  }

  /** From boot: the first process forks and sleeps, and its child exits while it does. */
  lemma OversleptReachable(s: Sys, stackBase: nat, ticks: nat, code: int)
    requires IsBoot(s) && s.table[0].waitChannel == 0 && ticks > 1
    ensures Overslept(Exit(Tick(Apply(Fork(s, stackBase), SleepEvent(ticks))), code).table[0])
  {
    hide Tick, NextReady;
    BootForks(s, stackBase);
    var w := Apply(Fork(s, stackBase), SleepEvent(ticks));
    ChildRuns(w, stackBase);
    TickTouches(w, 0);
    TickTouches(w, 1);
    OneTickOn(w, ticks);
    var u := Tick(w);
    assert Slumbers(u.table[0], ticks - 1);
    StillAsleep(u.table, u.table[1].clearChildTid, 1, 0, ticks - 1);
  }

  lemma OneTickOn(w: Sys, ticks: nat)
    requires Shaped(w) && Slumbers(w.table[0], ticks) && ticks > 1 && Tick(w).current == 1
    ensures Slumbers(Tick(w).table[0], ticks - 1)
  {
    hide Select;
  }
}
