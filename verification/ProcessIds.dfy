/**
 Process ids over whole runs (kernel/process/process.c): they are handed out in
 growing order, so no two active slots ever share one, and what exit, kill and
 wait promise by pid holds in every run.
 */
module ProcessIds {
  import opened Processes

  predicate IdOk(s: Sys, i: nat)
    requires Shaped(s) && i < MAX_PROCESSES
  {
    var p := s.table[i];
    p.pid < s.nextPid && (p.active ==> 0 < p.pid && p.ppid <= p.pid)
  }

  /** Ids are below the next one, no older than their parent's, and no two active slots share one. */
  ghost predicate PidsOk(s: Sys) {
    && Shaped(s) && s.nextPid > 0 && (forall i: nat :: i < MAX_PROCESSES ==> IdOk(s, i))
    && forall i: nat, j: nat :: i < j < MAX_PROCESSES && s.table[i].active && s.table[j].active ==>
                                  s.table[i].pid != s.table[j].pid
  }

  /** The slot is who it was, and did not come to life. */
  predicate SameId(p: Process, q: Process) {
    q.pid == p.pid && q.ppid == p.ppid && (q.active ==> p.active)
  }

  lemma ExitIds(s: Sys, code: int, i: nat)
    requires Shaped(s) && i < MAX_PROCESSES
    ensures SameId(s.table[i], Exit(s, code).table[i])
  {
    hide FutexWake;
    FutexWakeIdentity(s.table, s.table[s.current].clearChildTid, 1);
  }

  /** Every event but a creation leaves the ids alone. */
  lemma ApplyIds(s: Sys, e: Event, i: nat)
    requires Shaped(s) && i < MAX_PROCESSES && !e.ForkEvent? && !e.CloneEvent?
    ensures SameId(s.table[i], Apply(s, e).table[i]) && Apply(s, e).nextPid == s.nextPid
  {
    hide Tick, Exit, FutexWake;
    match e
    case TickEvent => TickTouches(s, i);
    case ExitEvent(code) =>
      ExitIds(s, code, i);
      ExitNext(s, code);
    case FutexWakeEvent(addr, count) => FutexWakeIdentity(s.table, addr, count);
    case _ =>
  }

  lemma ExitNext(s: Sys, code: int)
    requires Shaped(s)
    ensures Exit(s, code).nextPid == s.nextPid
  {
  }

  /** A new slot gets the next id, and its parent's is no greater. */
  lemma SpawnKeepsPids(s: Sys, k: nat, child: Process)
    requires PidsOk(s) && k < MAX_PROCESSES && child.pid == s.nextPid && child.ppid <= child.pid
    ensures PidsOk(s.(table := s.table[k := child], nextPid := s.nextPid + 1))
  {
    var r := s.(table := s.table[k := child], nextPid := s.nextPid + 1);
    forall i: nat | i < MAX_PROCESSES ensures IdOk(r, i) { assert IdOk(s, i); }
    forall i: nat, j: nat | i < j < MAX_PROCESSES && r.table[i].active && r.table[j].active
      ensures r.table[i].pid != r.table[j].pid
    {
      assert IdOk(s, i) && IdOk(s, j);
    }
  }

  lemma ForkKeepsPids(s: Sys, stackBase: nat)
    requires PidsOk(s)
    ensures PidsOk(Fork(s, stackBase))
  {
    hide FirstInactive, PidsOk;
    PidsFacts(s);
    var k := FirstInactive(s.table, 1);
    if k != MAX_PROCESSES { SpawnKeepsPids(s, k, ForkChild(Original(s, k), s.nextPid, stackBase)); }
  }

  lemma CloneKeepsPids(s: Sys, shareVm: bool, ctid: nat, stackBase: nat)
    requires PidsOk(s)
    ensures PidsOk(Clone(s, shareVm, ctid, stackBase))
  {
    hide FirstInactive, PidsOk;
    PidsFacts(s);
    var k := FirstInactive(s.table, 1);
    if !shareVm {
      ForkKeepsPids(s, stackBase);
    } else if k != MAX_PROCESSES {
      SpawnKeepsPids(s, k, CloneThread(Original(s, k), s.nextPid, ctid));
    }
  }

  lemma PidsFacts(s: Sys)
    requires PidsOk(s)
    ensures Shaped(s) && s.table[s.current].pid < s.nextPid
  {
    assert IdOk(s, s.current);
  }

  lemma ApplyKeepsPids(s: Sys, e: Event)
    requires PidsOk(s)
    ensures PidsOk(Apply(s, e))
  {
    match e
    case ForkEvent(stackBase) => ForkKeepsPids(s, stackBase);
    case CloneEvent(shareVm, ctid, stackBase) => CloneKeepsPids(s, shareVm, ctid, stackBase);
    case _ => SameIdsKeepPids(s, e);
  }

  lemma SameIdsKeepPids(s: Sys, e: Event)
    requires PidsOk(s) && !e.ForkEvent? && !e.CloneEvent?
    ensures PidsOk(Apply(s, e))
  {
    hide Apply;
    var r := Apply(s, e);
    ApplyIds(s, e, 0);
    forall i: nat | i < MAX_PROCESSES ensures IdOk(r, i) && SameId(s.table[i], r.table[i]) {
      ApplyIds(s, e, i);
      assert IdOk(s, i);
    }
  }

  /** From boot on, in every run at all, no two active slots share a pid. */
  lemma {:induction false} PidsNeverShared(s: Sys, events: seq<Event>)
    requires IsBoot(s)
    ensures PidsOk(Run(s, events))
    ensures forall k: nat :: k < MAX_PROCESSES && Run(s, events).table[k].active ==> OnlyHolder(Run(s, events).table, k)
    decreases |events|
  {
    hide Apply, IsBoot;
    BootPids(s);
    if events != [] {
      var n := |events| - 1;
      PidsNeverShared(s, events[..n]);
      ApplyKeepsPids(Run(s, events[..n]), events[n]);
    }
  }

  lemma BootPids(s: Sys)
    requires IsBoot(s)
    ensures PidsOk(s)
  {
    forall i: nat | i < MAX_PROCESSES ensures IdOk(s, i) {}
  }

  /**
   In every run: when a process other than its own parent exits and its parent is there, the parent is awake
   and its wait finds the child with the exit code, frees that slot and no other.
   */
  lemma ExitAlwaysMeetsWait(s: Sys, events: seq<Event>, q: nat, code: int)
    requires IsBoot(s) && q < MAX_PROCESSES
    requires var t := Run(s, events);
             var p := t.table[t.current];
             p.active && !p.isThread && p.ppid != p.pid && t.table[q].active && t.table[q].pid == p.ppid
    ensures ExitMeetsWait(Run(s, events), q, code)
  {
    hide Run, Apply, ExitMeetsWait;
    PidsNeverShared(s, events);
    var t := Run(s, events);
    assert IdOk(t, t.current) && IdOk(t, q);
    ExitThenWait(t, q, code);
  }

  /** In every run: a process that was killed can no longer be waited for. */
  lemma KillAlwaysLoses(s: Sys, events: seq<Event>, pid: int, sig: int, parent: int)
    requires IsBoot(s) && pid > 0 && FindPid(Run(s, events).table, pid, 0) < MAX_PROCESSES
    ensures var r := Kill(Run(s, events), pid, sig);
            && (forall i :: 0 <= i < MAX_PROCESSES ==> !IsWaitedFor(r.table[i], pid, parent))
            && FirstReapable(r.table, pid, parent, 0) == MAX_PROCESSES
  {
    hide Run, Apply;
    PidsNeverShared(s, events);
    KillThenWait(Run(s, events), pid, sig, parent);
  }

  /** An active child of `parent` that has ended. */
  predicate EndedChild(p: Process, parent: int) {
    p.active && p.ppid == parent && (p.state.Zombie? || p.exited)
  }

  /** A wait for any child reaps the first slot with an ended child of the caller, and nothing when there is none. */
  lemma WaitAnyReaps(s: Sys, pid: int) returns (k: nat)
    requires PidsOk(s) && pid <= 0
    ensures k <= MAX_PROCESSES && (forall i :: 0 <= i < k ==> !EndedChild(s.table[i], s.table[s.current].pid))
    ensures k == MAX_PROCESSES ==> Wait(s, pid) == s
    ensures k < MAX_PROCESSES ==>
              && EndedChild(s.table[k], s.table[s.current].pid) && !Wait(s, pid).table[k].active
              && Wait(s, pid) == s.(table := s.table[k := Wait(s, pid).table[k]])
  {
    forall i: nat | i < MAX_PROCESSES ensures IdOk(s, i) {}
    k := FirstReapable(s.table, pid, s.table[s.current].pid, 0);
    if k < MAX_PROCESSES { assert IdOk(s, k); }
  }

  /** A wait for one process reaps it if it has ended, whosever child it is, and nothing otherwise. */
  lemma WaitForReaps(s: Sys, pid: int, k: nat)
    requires PidsOk(s) && pid > 0 && k < MAX_PROCESSES && s.table[k].active && s.table[k].pid == pid
    ensures if s.table[k].state.Zombie? || s.table[k].exited
            then !Wait(s, pid).table[k].active && Wait(s, pid) == s.(table := s.table[k := Wait(s, pid).table[k]])
            else Wait(s, pid) == s
  {
    forall i: nat | i < MAX_PROCESSES && i != k && s.table[i].active ensures s.table[i].pid != pid {}
  }
}
