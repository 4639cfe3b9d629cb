/**
 What one step of kernel/process/process.c does to each slot of the process table,
 said of the slots before and after: which slot a tick selects, and whom an exit
 or a kill ends, wakes and leaves alone.
 */
module SlotEffects {
  import opened Options
  import opened Processes

  // The tick

  /** The slot can be selected at the next tick: ready, preempted by it, or woken by it. */
  predicate Due(s: Sys, i: nat)
    requires Shaped(s) && i < MAX_PROCESSES
  {
    var p := s.table[i];
    p.active && (p.state.Ready? || (p.state.Running? && i == s.current) ||
                 (p.state.Sleeping? && p.sleepTicks == 1 && p.waitChannel == 0))
  }

  lemma DueCanRun(s: Sys, i: nat)
    requires Shaped(s) && i < MAX_PROCESSES
    ensures CanRun(Preempted(s.table, s.current)[i]) <==> Due(s, i)
  {
  }

  /** The nearest due slot in cyclic order is selected, the current one last; slot 0 when none is due. */
  lemma TickSelects(s: Sys)
    requires Shaped(s)
    ensures var next := Tick(s).current;
            || (Due(s, next) && forall i: nat :: i < MAX_PROCESSES && Due(s, i) ==>
                                                   Distance(s.current, next) <= Distance(s.current, i))
            || (next == 0 && forall i: nat :: i < MAX_PROCESSES ==> !Due(s, i))
  {
    hide Due, Preempted, SwitchPages, NextReady;
    var table := Preempted(s.table, s.current);
    forall i: nat | i < MAX_PROCESSES ensures CanRun(table[i]) <==> Due(s, i) { DueCanRun(s, i); }
    forall i: nat | i < MAX_PROCESSES && CanRun(table[i])
      ensures NextReady(table, s.current, 1).Some? && Distance(s.current, Tick(s).current) <= Distance(s.current, i)
    {
      ScanStopsBefore(table, s.current, 1, i);
    }
    if NextReady(table, s.current, 1).None? { NoneRuns(s); }
  }

  /** After the preemption nobody runs any more. */
  lemma NoneRuns(s: Sys)
    requires Shaped(s)
    ensures var p := Preempted(s.table, s.current)[s.current]; !(p.active && p.state.Running?)
  {
  }

  /** The selected slot runs, the preempted one is ready, and no other slot that is not asleep changes. */
  lemma TickStates(s: Sys, i: nat)
    requires Shaped(s) && i < MAX_PROCESSES
    ensures Tick(s).table[Tick(s).current].state.Running?
    ensures i != Tick(s).current && !s.table[i].state.Sleeping? ==>
              Tick(s).table[i] == if i == s.current && s.table[i].active && s.table[i].state.Running?
                                  then s.table[i].(state := Ready) else s.table[i]
  {
    hide Select, SwitchPages;
  }

  // Exit

  /** `q` waits for the thread word of `p`. */
  predicate Joins(p: Process, q: Process) {
    p.clearChildTid != 0 && WaitsOn(q, p.clearChildTid)
  }

  /** A process's exit ends its active children with its code and leaves alone who is no relative and not woken. */
  lemma ExitTouches(s: Sys, code: int, i: nat)
    requires Shaped(s) && !s.table[s.current].isThread && i < MAX_PROCESSES && i != s.current
    ensures var p, q, r := s.table[s.current], s.table[i], Exit(s, code).table[i];
            && (q.active && q.ppid == p.pid ==> !r.active && r.exited && r.state.Zombie? && r.exitCode == code)
            && (!(q.active && (q.ppid == p.pid || q.pid == p.ppid)) && !Joins(p, q) ==> r == q)
  {
    hide FutexWake;
    if !Joins(s.table[s.current], s.table[i]) { WakeLeaves(s.table, s.table[s.current].clearChildTid, 1, i); }
    FutexWakeIdentity(s.table, s.table[s.current].clearChildTid, 1);
  }

  /** The process that exits keeps its slot with its code, to be waited for, unless it is its own parent. */
  lemma ExitStays(s: Sys, code: int)
    requires Shaped(s) && !s.table[s.current].isThread
    ensures var p, r := s.table[s.current], Exit(s, code).table[s.current];
            && r.exited && r.state.Zombie? && r.exitCode == code && r.pid == p.pid && r.ppid == p.ppid
            && (r.active <==> p.active && p.ppid != p.pid) && r.segments == p.segments
  {
    hide FutexWake;
    FutexWakeIdentity(s.table, s.table[s.current].clearChildTid, 1);
  }

  lemma WakeLeaves(table: seq<Process>, addr: nat, count: int, i: nat)
    requires i < |table| && !(addr != 0 && WaitsOn(table[i], addr))
    ensures FutexWake(table, addr, count)[i] == table[i]
  {
    hide WakeFrom;
    if addr != 0 && count > 0 { WakesFirstWaiters(table, addr, count, 0, i); }
  }

  /** A thread's exit gives up its slot and wakes the first joiner, and nobody else. */
  lemma ThreadExits(s: Sys, code: int, i: nat)
    requires Shaped(s) && s.table[s.current].isThread && i < MAX_PROCESSES
    ensures var p, q, r := s.table[s.current], s.table[i], Exit(s, code).table[i];
            if i == s.current then !r.active && r.state.Zombie? && r.exitCode == code && r.pid == p.pid
            else if Joins(p, q) && forall j :: 0 <= j < i ==> !Joins(p, s.table[j])
            then r == q.(waitChannel := 0, state := Ready)
            else r == q
  {
    hide WakeFrom, Waiters;
    var addr := s.table[s.current].clearChildTid;
    if addr != 0 {
      WakesFirstWaiters(s.table, addr, 1, 0, i);
      NoWaiters(s.table, addr, 0, i);
      WakesFirstWaiters(s.table, addr, 1, 0, s.current);
    }
  }

  lemma {:induction false} NoWaiters(table: seq<Process>, addr: nat, i: nat, j: nat)
    requires i <= j <= |table|
    ensures Waiters(table, addr, i, j) == 0 <==> forall k :: i <= k < j ==> !WaitsOn(table[k], addr)
    decreases j - i
  {
    if i < j { NoWaiters(table, addr, i + 1, j); }
  }

  // Kill

  /** A kill ends the one process with that pid, wakes its parent and leaves every other slot alone. */
  lemma KillTouches(s: Sys, pid: int, sig: int, k: nat, i: nat)
    requires Shaped(s) && k < MAX_PROCESSES && i < MAX_PROCESSES && OnlyHolder(s.table, k)
    requires s.table[k].active && s.table[k].pid == pid
    ensures var q, r := s.table[i], Kill(s, pid, sig).table[i];
            if i == k then !r.active && r.exited && r.state.Zombie? && r.exitCode == sig
            else if q.active && q.pid == s.table[k].ppid && q.state.Sleeping? then r == q.(state := Ready)
            else r == q
  {
    hide FirstInactive;
    assert FindPid(s.table, pid, 0) == k;
  }

  /** A kill of a pid that nobody has does nothing. */
  lemma KillMisses(s: Sys, pid: int, sig: int)
    requires Shaped(s) && forall i :: 0 <= i < MAX_PROCESSES && s.table[i].active ==> s.table[i].pid != pid
    ensures Kill(s, pid, sig) == s
  {
  }

  // Futexes

  /** A futex wait puts the caller to sleep on the address exactly when there is one and it holds the value. */
  lemma WaitSleeps(s: Sys, addr: nat, word: int, val: int, i: nat)
    requires Shaped(s) && i < MAX_PROCESSES
    ensures FutexWait(s, addr, word, val).table[i] ==
            if i == s.current && addr > 0 && word == val
            then s.table[i].(waitChannel := addr, state := Sleeping) else s.table[i]
  {
  }
}
