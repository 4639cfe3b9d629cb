/**
 What becomes of a process that waits on a futex (kernel/process/process.c), over
 whole runs. `futex_wait` puts the process to sleep and idles until its wait
 channel has changed; a child that ends makes a sleeping parent ready without
 clearing the channel.
 */
module FutexRuns {
  import opened Processes

  /** The event is a wake that reaches slot `j` while it still sleeps on the address. */
  predicate Releases(s: Sys, e: Event, j: nat, addr: nat)
    requires Shaped(s) && j < MAX_PROCESSES
  {
    && WaitsOn(s.table[j], addr)
    && match e
       case FutexWakeEvent(a, count) => a == addr && Waiters(s.table, addr, 0, j) < count
       case ExitEvent(_) => s.table[s.current].clearChildTid == addr && Waiters(s.table, addr, 0, j) < 1
       case _ => false
  }

  /**
   The event makes a sleeping slot `j` ready or running but no wake of its channel: a child of it ends,
   or it is slot 0 and the tick falls back to it because nothing is ready.
   */
  predicate Disturbs(s: Sys, e: Event, j: nat)
    requires Shaped(s) && j < MAX_PROCESSES
  {
    match e
    case TickEvent => j == 0 && NextReady(Preempted(s.table, s.current), s.current, 1).None?
    case ExitEvent(_) => !s.table[s.current].isThread && s.table[s.current].ppid == s.table[j].pid
    case KillEvent(pid, _) =>
      var k := FindPid(s.table, pid, 0);
      k < MAX_PROCESSES && s.table[k].ppid == s.table[j].pid
    case _ => false
  }

  /** Slot `j` is in the idle loop of `futex_wait`: when it is the current one, nothing but a tick happens. */
  predicate Idles(s: Sys, e: Event, j: nat, addr: nat)
    requires Shaped(s) && j < MAX_PROCESSES
  {
    s.table[j].active && (s.table[j].waitChannel == addr && s.current == j ==> e.TickEvent?)
  }

  /** What a wake on `a` does to a slot that waits on `addr`. */
  lemma WakeOn(table: seq<Process>, a: nat, count: int, j: nat, addr: nat)
    requires j < |table| && addr != 0 && table[j].waitChannel == addr
    ensures var r := FutexWake(table, a, count)[j];
            if a == addr && WaitsOn(table[j], addr) && Waiters(table, addr, 0, j) < count
            then r == table[j].(waitChannel := 0, state := Ready) else r == table[j]
  {
    if a != 0 && count > 0 { WakesFirstWaiters(table, a, count, 0, j); }
  }

  /** A sleeping slot is selected exactly when it is slot 0 and nothing is ready. */
  lemma SleeperSelected(table: seq<Process>, current: nat, j: nat)
    requires |table| == MAX_PROCESSES && current < MAX_PROCESSES && j < MAX_PROCESSES
    requires table[j].state.Sleeping? && !(table[current].active && table[current].state.Running?)
    ensures Select(table, current) == j <==> j == 0 && NextReady(table, current, 1).None?
  {
    hide NextReady;
    if CanRun(table[current]) { ScanStopsBefore(table, current, 1, current); }
  }

  /** A tick changes no channel, and wakes a sleeper on a channel only by falling back to slot 0. */
  lemma TickLeavesWaiter(s: Sys, j: nat, addr: nat)
    requires Shaped(s) && j < MAX_PROCESSES && addr != 0 && s.table[j].active && s.table[j].waitChannel == addr
    ensures var r := Tick(s).table[j];
            && r.waitChannel == addr && r.active
            && (!s.table[j].state.Sleeping? ==> !r.state.Sleeping?)
            && (s.table[j].state.Sleeping? ==> (r.state.Sleeping? <==> !Disturbs(s, TickEvent, j)))
  {
    hide NextReady, Select;
    var table := Preempted(s.table, s.current);
    if s.table[j].state.Sleeping? { SleeperSelected(table, s.current, j); }
  }

  /** One event takes a waiting slot off its channel exactly when it is a wake that finds it asleep. */
  lemma ReleasedByStep(s: Sys, e: Event, j: nat, addr: nat)
    requires Shaped(s) && j < MAX_PROCESSES && addr != 0 && s.table[j].waitChannel == addr && Idles(s, e, j, addr)
    ensures Apply(s, e).table[j].waitChannel != addr <==> Releases(s, e, j, addr)
  {
    hide Tick, FutexWake, Waiters, NextReady;
    match e
    case TickEvent => TickLeavesWaiter(s, j, addr);
    case ExitEvent(code) => WakeOn(s.table, s.table[s.current].clearChildTid, 1, j, addr);
    case FutexWakeEvent(a, count) => WakeOn(s.table, a, count, j, addr);
    case _ =>
  }

  ghost predicate IdlesThrough(s: Sys, events: seq<Event>, j: nat, addr: nat)
    requires Shaped(s) && j < MAX_PROCESSES
  {
    forall i: nat :: i < |events| ==> Idles(Run(s, events[..i]), events[i], j, addr)
  }

  lemma IdlesBefore(s: Sys, events: seq<Event>, j: nat, addr: nat, n: nat)
    requires Shaped(s) && j < MAX_PROCESSES && n <= |events| && IdlesThrough(s, events, j, addr)
    ensures IdlesThrough(s, events[..n], j, addr)
  {
    hide Idles, Run;
    forall i: nat | i < n ensures Idles(Run(s, events[..n][..i]), events[..n][i], j, addr) {
      assert events[..n][..i] == events[..i];
      assert Idles(Run(s, events[..i]), events[i], j, addr);
    }
  }

  lemma RunNext(s: Sys, events: seq<Event>, i: nat)
    requires Shaped(s) && i < |events|
    ensures Run(s, events[..i + 1]) == Apply(Run(s, events[..i]), events[i])
  {
    hide Apply;
    assert events[..i + 1][..i] == events[..i];
  }

  /** Over a whole run: the waiter is in its loop all the time exactly when no wake ever finds it asleep. */
  lemma {:induction false} ReleasedExactly(s: Sys, events: seq<Event>, j: nat, addr: nat)
    requires Shaped(s) && j < MAX_PROCESSES && addr != 0 && s.table[j].waitChannel == addr
    requires IdlesThrough(s, events, j, addr)
    ensures (forall i: nat :: i <= |events| ==> Run(s, events[..i]).table[j].waitChannel == addr) <==>
            (forall i: nat :: i < |events| ==> !Releases(Run(s, events[..i]), events[i], j, addr))
    decreases |events|
  {
    hide Run, Apply, Releases, Idles;
    assert events[..0] == [];
    assert Run(s, []) == s by { RunNothing(s); }
    if events != [] {
      var n := |events| - 1;
      IdlesBefore(s, events, j, addr, n);
      ReleasedExactly(s, events[..n], j, addr);
      PrefixesKept(s, events, j, addr, n);
      if Run(s, events[..n]).table[j].waitChannel == addr {
        ReleasedByStep(Run(s, events[..n]), events[n], j, addr);
        RunNext(s, events, n);
      }
    }
  }

  lemma RunNothing(s: Sys)
    requires Shaped(s)
    ensures Run(s, []) == s
  {
  }

  lemma PrefixesKept(s: Sys, events: seq<Event>, j: nat, addr: nat, n: nat)
    requires Shaped(s) && j < MAX_PROCESSES && n + 1 == |events|
    ensures forall i: nat :: i <= n ==> Run(s, events[..n][..i]) == Run(s, events[..i])
    ensures forall i: nat :: i < n ==> events[..n][i] == events[i]
    ensures events[..n + 1] == events && events[..n][..n] == events[..n]
  {
    hide Run;
    forall i: nat | i <= n ensures Run(s, events[..n][..i]) == Run(s, events[..i]) {
      assert events[..n][..i] == events[..i];
    }
  }

  // The lost wake

  /** Slot `j` still idles on the channel, but is no longer asleep. */
  predicate Stranded(p: Process, addr: nat) {
    p.active && p.waitChannel == addr && !p.state.Sleeping?
  }

  lemma StrandedByExit(s: Sys, code: int, j: nat, addr: nat)
    requires Shaped(s) && j < MAX_PROCESSES && addr != 0 && WaitsOn(s.table[j], addr) && s.current != j
    requires Exit(s, code).table[j].active && !Releases(s, ExitEvent(code), j, addr)
    ensures Stranded(Exit(s, code).table[j], addr) <==> Disturbs(s, ExitEvent(code), j)
  {
    hide FutexWake, Waiters;
    var ctid := s.table[s.current].clearChildTid;
    WakeOn(s.table, ctid, 1, j, addr);
    FutexWakeIdentity(s.table, ctid, 1);
  }

  lemma StrandedByKill(s: Sys, pid: int, sig: int, j: nat, addr: nat)
    requires Shaped(s) && j < MAX_PROCESSES && addr != 0 && WaitsOn(s.table[j], addr)
    requires Kill(s, pid, sig).table[j].active
    ensures Stranded(Kill(s, pid, sig).table[j], addr) <==> Disturbs(s, KillEvent(pid, sig), j)
  {
  }

  /** A sleeping waiter that no wake reaches is awake afterwards exactly when the event disturbs it. */
  lemma StrandedExactly(s: Sys, e: Event, j: nat, addr: nat)
    requires Shaped(s) && j < MAX_PROCESSES && addr != 0 && WaitsOn(s.table[j], addr) && Idles(s, e, j, addr)
    requires Apply(s, e).table[j].active && !Releases(s, e, j, addr)
    ensures Stranded(Apply(s, e).table[j], addr) <==> Disturbs(s, e, j)
  {
    hide Tick, Exit, Kill, FutexWake, Waiters, NextReady, FindPid;
    match e
    case TickEvent => TickLeavesWaiter(s, j, addr);
    case ExitEvent(code) => StrandedByExit(s, code, j, addr);
    case KillEvent(pid, sig) => StrandedByKill(s, pid, sig, j, addr);
    case FutexWakeEvent(a, count) => WakeOn(s.table, a, count, j, addr);
    case _ =>
  }

  /** A stranded process stays stranded until it is ended: no wake of any kind gets it out of its loop. */
  lemma StrandedStep(s: Sys, e: Event, j: nat, addr: nat)
    requires Shaped(s) && j < MAX_PROCESSES && addr != 0 && Stranded(s.table[j], addr) && Idles(s, e, j, addr)
    ensures Apply(s, e).table[j].active ==> Stranded(Apply(s, e).table[j], addr)
  {
    hide Tick, FutexWake, Waiters, NextReady;
    match e
    case TickEvent => TickLeavesWaiter(s, j, addr);
    case ExitEvent(code) => WakeOn(s.table, s.table[s.current].clearChildTid, 1, j, addr);
    case FutexWakeEvent(a, count) => WakeOn(s.table, a, count, j, addr);
    case _ =>
  }

  lemma {:induction false} LostForever(s: Sys, events: seq<Event>, j: nat, addr: nat)
    requires Shaped(s) && j < MAX_PROCESSES && addr != 0 && Stranded(s.table[j], addr)
    requires IdlesThrough(s, events, j, addr)
    ensures Run(s, events).table[j].active ==> Stranded(Run(s, events).table[j], addr)
    decreases |events|
  {
    hide Apply, Stranded;
    if events != [] {
      var n := |events| - 1;
      IdlesBefore(s, events, j, addr, n);
      LostForever(s, events[..n], j, addr);
      assert Idles(Run(s, events[..n]), events[n], j, addr);
      StrandedStep(Run(s, events[..n]), events[n], j, addr);
    }
  }

  /** From boot: the first process forks, waits on a futex, and its child exits; no later wake reaches it. */
  lemma LostWakeReachable(s: Sys, stackBase: nat, addr: nat, val: int, code: int, events: seq<Event>)
    requires IsBoot(s) && addr != 0
    requires var t := Exit(Tick(FutexWait(Fork(s, stackBase), addr, val, val)), code);
             IdlesThrough(t, events, 0, addr)
    ensures var t := Exit(Tick(FutexWait(Fork(s, stackBase), addr, val, val)), code);
            && Stranded(t.table[0], addr)
            && (Run(t, events).table[0].active ==> Run(t, events).table[0].waitChannel == addr)
  {
    hide Run, Tick;
    BootForks(s, stackBase);
    var w := FutexWait(Fork(s, stackBase), addr, val, val);
    ChildRuns(w, stackBase);
    TickTouches(w, 0);
    TickTouches(w, 1);
    TickLeavesWaiter(w, 0, addr);
    var u := Tick(w);
    WakeOn(u.table, u.table[1].clearChildTid, 1, 0, addr);
    StrandedAfter(u, code, addr);
    LostForever(Exit(u, code), events, 0, addr);
  }

  /** The child in slot 1 exits while its parent in slot 0 waits. */
  lemma StrandedAfter(u: Sys, code: int, addr: nat)
    requires Shaped(u) && u.current == 1 && addr != 0 && u.table[0].active && u.table[0].waitChannel == addr
    requires !u.table[1].isThread && u.table[1].clearChildTid == 0
    requires u.table[1].ppid == u.table[0].pid && u.table[0].ppid != u.table[1].pid
    ensures Stranded(Exit(u, code).table[0], addr)
  {
  }

  // Wakes that cross address spaces

  /** The first slot that sleeps on the address. */
  function FirstSleeper(table: seq<Process>, addr: nat, i: nat): (k: nat)
    requires i <= |table|
    ensures i <= k <= |table|
    ensures forall j :: i <= j < k ==> !WaitsOn(table[j], addr)
    ensures k < |table| ==> WaitsOn(table[k], addr)
    decreases |table| - i
  {
    if i == |table| || WaitsOn(table[i], addr) then i else FirstSleeper(table, addr, i + 1)
  }

  /** The wake takes some slot of thread group `group` off the address. */
  ghost predicate ReleasesGroup(table: seq<Process>, r: seq<Process>, addr: nat, group: int)
    requires |r| == |table|
  {
    exists j :: 0 <= j < |table| && table[j].tgid == group && WaitsOn(table[j], addr) && !WaitsOn(r[j], addr)
  }

  lemma {:induction false} NoWaitersBefore(table: seq<Process>, addr: nat, i: nat, j: nat)
    requires i <= j <= |table| && forall k :: i <= k < j ==> !WaitsOn(table[k], addr)
    ensures Waiters(table, addr, i, j) == 0
    decreases j - i
  {
    if i < j { NoWaitersBefore(table, addr, i + 1, j); }
  }

  lemma {:induction false} SomeWaiterBefore(table: seq<Process>, addr: nat, i: nat, k: nat, j: nat)
    requires i <= k < j <= |table| && WaitsOn(table[k], addr)
    ensures Waiters(table, addr, i, j) >= 1
    decreases k - i
  {
    if i < k { SomeWaiterBefore(table, addr, i + 1, k, j); }
  }

  /** A wake of one changes the first sleeping slot on that address, whosever it is, and no other. */
  lemma WakeOneIs(table: seq<Process>, addr: nat, j: nat)
    requires addr != 0 && j < |table|
    ensures FutexWake(table, addr, 1)[j] ==
            if j == FirstSleeper(table, addr, 0) then table[j].(waitChannel := 0, state := Ready) else table[j]
  {
    hide WakeFrom, Waiters;
    var k := FirstSleeper(table, addr, 0);
    WakesFirstWaiters(table, addr, 1, 0, j);
    if j <= k { NoWaitersBefore(table, addr, 0, j); } else { SomeWaiterBefore(table, addr, 0, k, j); }
  }

  /**
   The address is virtual and says nothing of whose memory it is in: a wake of one releases a sleeper of the
   group it is meant for exactly when the first slot that sleeps on that address belongs to the group.
   */
  lemma WakeReachesGroup(table: seq<Process>, addr: nat, group: int)
    requires addr != 0
    ensures ReleasesGroup(table, FutexWake(table, addr, 1), addr, group) <==>
            var k := FirstSleeper(table, addr, 0); k < |table| && table[k].tgid == group
  {
    hide FutexWake;
    var k, r := FirstSleeper(table, addr, 0), FutexWake(table, addr, 1);
    if k < |table| { WakeOneIs(table, addr, k); }
    if ReleasesGroup(table, r, addr, group) {
      var j :| 0 <= j < |table| && table[j].tgid == group && WaitsOn(table[j], addr) && !WaitsOn(r[j], addr);
      WakeOneIs(table, addr, j);
    }
  }

  /** Only slots 0 to `n` are in use, and slot `k` is the one that can run. */
  ghost predicate OnlyReady(s: Sys, n: nat, k: nat) {
    && Shaped(s) && k <= n < MAX_PROCESSES && CanRun(s.table[k])
    && (forall i :: 0 <= i <= n && i != k ==>
                      s.table[i].active && s.table[i].waitChannel != 0 && s.table[i].state.Sleeping?)
    && forall i :: n < i < MAX_PROCESSES ==> !s.table[i].active
  }

  /** A tick selects the only slot that can run and leaves the others be. */
  lemma TickSelects(s: Sys, n: nat, k: nat)
    requires OnlyReady(s, n, k) && s.current != k
    ensures Tick(s).current == k && Tick(s).nextPid == s.nextPid
    ensures forall i :: 0 <= i < MAX_PROCESSES ==> Ticked(s.table[i], Tick(s).table[i])
    ensures forall i :: 0 <= i <= n && i != k ==> Tick(s).table[i].state.Sleeping?
    ensures Tick(s).table[k].state.Running?
  {
    hide NextReady;
    var table := Preempted(s.table, s.current);
    ScanStopsBefore(table, s.current, 1, k);
    var next := NextReady(table, s.current, 1).value;
    assert CanRun(table[next]);
  }

  /** The first process sleeps on the address and its child in slot 1 runs. */
  ghost predicate ChildAlone(s: Sys, addr: nat) {
    && Shaped(s) && s.current == 1 && WaitsOn(s.table[0], addr) && s.table[0].tgid == 1
    && s.table[1].active && s.table[1].state.Running? && s.table[1].tgid == 2
    && forall i :: 1 < i < MAX_PROCESSES ==> !s.table[i].active
  }

  /** The child has a thread in slot 2, which waits on the same address, and is ready itself. */
  ghost predicate ThreadWaits(s: Sys, addr: nat) {
    && OnlyReady(s, 2, 1) && s.current == 2 && WaitsOn(s.table[0], addr) && WaitsOn(s.table[2], addr)
    && s.table[0].tgid == 1 && s.table[1].tgid == 2 && s.table[2].tgid == 2
  }

  lemma ChildGetsThere(s: Sys, stackBase: nat, addr: nat, val: int)
    requires IsBoot(s) && addr != 0
    ensures ChildAlone(Tick(FutexWait(Fork(s, stackBase), addr, val, val)), addr)
  {
    hide Tick;
    BootForks(s, stackBase);
    var w := FutexWait(Fork(s, stackBase), addr, val, val);
    assert OnlyReady(w, 1, 1);
    TickSelects(w, 1, 1);
    forall i | 0 <= i < MAX_PROCESSES ensures Ticked(w.table[i], Tick(w).table[i]) {}
    assert Ticked(w.table[0], Tick(w).table[0]) && Ticked(w.table[1], Tick(w).table[1]);
  }

  lemma ThreadGetsThere(s: Sys, stackBase: nat, addr: nat, val: int)
    requires ChildAlone(s, addr) && addr != 0
    ensures ThreadWaits(FutexWait(Tick(Clone(s, true, 0, stackBase)), addr, val, val), addr)
  {
    var c := Clone(s, true, 0, stackBase);
    assert FirstInactive(s.table, 1) == 2 && CanRun(c.table[2]);
    ThreadRuns(c, addr);
  }

  lemma ThreadRuns(c: Sys, addr: nat)
    requires Shaped(c) && c.current == 1 && addr != 0 && WaitsOn(c.table[0], addr) && CanRun(c.table[2])
    requires c.table[1].active && c.table[1].state.Running? && forall i :: 2 < i < MAX_PROCESSES ==> !c.table[i].active
    ensures var t := Tick(c);
            && t.current == 2 && CanRun(t.table[1]) && WaitsOn(t.table[0], addr) && t.table[2].active
            && forall i :: 0 <= i < MAX_PROCESSES ==> Ticked(c.table[i], t.table[i])
  {
    assert (1 + 1) % MAX_PROCESSES == 2;
    assert CanRun(Preempted(c.table, 1)[2]);
  }

  /**
   From boot: the first process waits on an address, and in its child, another address space, a thread waits on the
   same one. The child's wake of one goes to the first process, and its own thread sleeps on.
   */
  lemma WakeStolen(s: Sys, stackBase: nat, addr: nat, val: int)
    requires IsBoot(s) && addr != 0
    ensures var c := Tick(FutexWait(Fork(s, stackBase), addr, val, val));
            var t := Tick(FutexWait(Tick(Clone(c, true, 0, stackBase)), addr, val, val));
            var r := FutexWake(t.table, addr, 1);
            && t.current == 1 && t.table[1].tgid == t.table[2].tgid == 2 && WaitsOn(t.table[2], addr)
            && !ReleasesGroup(t.table, r, addr, 2) && WaitsOn(r[2], addr)
  {
    hide Tick, FutexWait, Fork, Clone, FutexWake;
    var c := Tick(FutexWait(Fork(s, stackBase), addr, val, val));
    ChildGetsThere(s, stackBase, addr, val);
    ThreadGetsThere(c, stackBase, addr, val);
    var w := FutexWait(Tick(Clone(c, true, 0, stackBase)), addr, val, val);
    TickSelects(w, 2, 1);
    var t := Tick(w);
    assert Ticked(w.table[0], t.table[0]) && Ticked(w.table[1], t.table[1]) && Ticked(w.table[2], t.table[2]);
    assert FirstSleeper(t.table, addr, 0) == 0;
    WakeReachesGroup(t.table, addr, 2);
    WakeOneIs(t.table, addr, 2);
  }
}
