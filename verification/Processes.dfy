/**
 The process table of kernel/process/process.c: the round-robin scheduler tick
 with its address-space switch, fork, clone, exit, kill, wait and futexes. Each
 method works in place on the table and is tied to a function on its contents.
 The page table is seen as the map from virtual page to frame address that
 `map_user_pages` updates pointwise.
 */
module Processes {
  import opened Options
  import opened ElfLoader

  const MAX_PROCESSES: nat := 32
  const USER_STACK_PAGES: nat := 16

  /** The first page of the user stack: (USER_STACK_TOP - 64 KB) / 4096. */
  const STACK_PAGE: nat := 0x7_FFFE_FFF0

  datatype ProcState = Free | Ready | Running | Sleeping | Zombie

  datatype Process = Process(pid: int, ppid: int, tgid: int, isThread: bool, active: bool, exited: bool,
                             state: ProcState, exitCode: int, segments: seq<Segment>, stackBase: nat,
                             sleepTicks: nat, waitChannel: nat, clearChildTid: nat)

  type Pages = map<nat, nat>

  datatype Sys = Sys(table: seq<Process>, current: nat, nextPid: int, pages: Pages)

  predicate Shaped(s: Sys) {
    |s.table| == MAX_PROCESSES && s.current < MAX_PROCESSES
  }

  // The address-space switch

  /** The frame that page `v` of a run from `page` gets. */
  function FrameFor(page: nat, phys: nat, v: nat): nat
    requires page <= v
  {
    phys + (v - page) * 4096
  }

  /** `map_user_pages` on page numbers. */
  function MapRun(pages: Pages, page: nat, phys: nat, n: nat): Pages {
    pages + map v: nat | page <= v < page + n :: FrameFor(page, phys, v)
  }

  function MapSegments(pages: Pages, segments: seq<Segment>): Pages {
    if segments == [] then pages
    else
      var last := segments[|segments| - 1];
      MapRun(MapSegments(pages, segments[..|segments| - 1]), last.virtAddr / 4096, last.physAddr, last.numPages)
  }

  /** The remapping block of the tick: every recorded segment, then the stack if there is one. */
  function Remap(pages: Pages, p: Process): Pages {
    var mapped := MapSegments(pages, p.segments);
    if p.stackBase != 0 then MapRun(mapped, STACK_PAGE, p.stackBase, USER_STACK_PAGES) else mapped
  }

  ghost predicate RunAgrees(pages: Pages, page: nat, phys: nat, n: nat) {
    forall v: nat :: page <= v < page + n ==> v in pages && pages[v] == FrameFor(page, phys, v)
  }

  /** The process's recorded segments and stack translate to its own frames. */
  ghost predicate Agrees(pages: Pages, p: Process) {
    && (forall i :: 0 <= i < |p.segments| ==>
                      RunAgrees(pages, p.segments[i].virtAddr / 4096, p.segments[i].physAddr, p.segments[i].numPages))
    && (p.stackBase != 0 ==> RunAgrees(pages, STACK_PAGE, p.stackBase, USER_STACK_PAGES))
  }

  predicate RunsApart(page: nat, n: nat, page': nat, n': nat) {
    page + n <= page' || page' + n' <= page
  }

  /** Segments share no page with one another or with the stack. */
  ghost predicate PageDisjoint(segments: seq<Segment>) {
    && (forall i, j :: 0 <= i < j < |segments| ==>
                         RunsApart(segments[i].virtAddr / 4096, segments[i].numPages,
                                   segments[j].virtAddr / 4096, segments[j].numPages))
    && (forall i :: 0 <= i < |segments| ==>
                      RunsApart(segments[i].virtAddr / 4096, segments[i].numPages, STACK_PAGE, USER_STACK_PAGES))
  }

  lemma {:induction false} MapSegmentsAgree(pages: Pages, segments: seq<Segment>)
    requires PageDisjoint(segments)
    ensures forall i :: 0 <= i < |segments| ==>
              RunAgrees(MapSegments(pages, segments), segments[i].virtAddr / 4096, segments[i].physAddr,
                        segments[i].numPages)
  {
    if segments != [] {
      var n := |segments| - 1;
      MapSegmentsAgree(pages, segments[..n]);
      forall i | 0 <= i < n
        ensures RunAgrees(MapSegments(pages, segments), segments[i].virtAddr / 4096, segments[i].physAddr,
                          segments[i].numPages)
      {
        assert segments[..n][i] == segments[i];
        assert RunsApart(segments[i].virtAddr / 4096, segments[i].numPages,
                         segments[n].virtAddr / 4096, segments[n].numPages);
      }
    }
  }

  lemma RemapAgrees(pages: Pages, p: Process)
    requires PageDisjoint(p.segments)
    ensures Agrees(Remap(pages, p), p)
  {
    MapSegmentsAgree(pages, p.segments);
    forall i | 0 <= i < |p.segments|
      ensures RunAgrees(Remap(pages, p), p.segments[i].virtAddr / 4096, p.segments[i].physAddr, p.segments[i].numPages)
    {
      assert RunsApart(p.segments[i].virtAddr / 4096, p.segments[i].numPages, STACK_PAGE, USER_STACK_PAGES);
    }
  }

  // scheduler_tick

  /** Step 1 of the tick, for one slot. */
  function TickSleeper(p: Process): Process {
    if p.active && p.state.Sleeping? && p.sleepTicks > 0 then
      var q := p.(sleepTicks := p.sleepTicks - 1);
      if q.sleepTicks == 0 && q.waitChannel == 0 then q.(state := Ready) else q
    else p
  }

  function TickSleepers(table: seq<Process>): (r: seq<Process>)
    ensures |r| == |table|
  {
    seq(|table|, i requires 0 <= i < |table| => TickSleeper(table[i]))
  }

  predicate CanRun(p: Process) {
    p.active && p.state.Ready?
  }

  /** Step 3: the first ready slot from distance `d` on, in cyclic order after `current`. */
  function NextReady(table: seq<Process>, current: nat, d: nat): (r: Option<nat>)
    requires |table| == MAX_PROCESSES && current < MAX_PROCESSES && d <= MAX_PROCESSES + 1
    ensures r.Some? ==> r.value < MAX_PROCESSES && CanRun(table[r.value])
    decreases MAX_PROCESSES + 1 - d
  {
    if d == MAX_PROCESSES + 1 then None
    else if CanRun(table[(current + d) % MAX_PROCESSES]) then Some((current + d) % MAX_PROCESSES)
    else NextReady(table, current, d + 1)
  }

  /** The process to run next; slot 0 when nothing is ready. */
  function Select(table: seq<Process>, current: nat): (next: nat)
    requires |table| == MAX_PROCESSES && current < MAX_PROCESSES
    ensures next < MAX_PROCESSES
  {
    match NextReady(table, current, 1)
    case Some(next) => next
    case None =>
      if table[current].active && (table[current].state.Ready? || table[current].state.Running?) then current else 0
  }

  /** Steps 1 and 2: timers, and the preempted process becomes ready. */
  function Preempted(table: seq<Process>, current: nat): (r: seq<Process>)
    requires current < |table|
    ensures |r| == |table|
  {
    var woken := TickSleepers(table);
    if woken[current].active && woken[current].state.Running?
    then woken[current := woken[current].(state := Ready)] else woken
  }

  function SwitchPages(pages: Pages, table: seq<Process>, current: nat, next: nat): Pages
    requires current < |table| && next < |table|
  {
    if next != current && (!table[next].isThread || table[next].tgid != table[current].tgid)
    then Remap(pages, table[next]) else pages
  }

  function Tick(s: Sys): (r: Sys)
    requires Shaped(s)
    ensures Shaped(r)
  {
    var table := Preempted(s.table, s.current);
    var next := Select(table, s.current);
    s.(table := table[next := table[next].(state := Running)], current := next,
       pages := SwitchPages(s.pages, table, s.current, next))
  }

  predicate Ticked(p: Process, q: Process) {
    q == p.(sleepTicks := q.sleepTicks, state := q.state)
  }

  /** A tick touches nothing but timers and states of the slots. */
  lemma TickTouches(s: Sys, i: nat)
    requires Shaped(s) && i < MAX_PROCESSES
    ensures Ticked(s.table[i], Tick(s).table[i]) && Tick(s).nextPid == s.nextPid
  {
    hide Select, SwitchPages;
  }

  // Process creation

  /** The first inactive slot from `i` on; slot 0 is never reused. */
  function FirstInactive(table: seq<Process>, i: nat): (k: nat)
    requires i <= |table|
    ensures i <= k <= |table|
    ensures forall j :: i <= j < k ==> table[j].active
    ensures k < |table| ==> !table[k].active
    decreases |table| - i
  {
    if i == |table| || !table[i].active then i else FirstInactive(table, i + 1)
  }

  function ForkChild(parent: Process, pid: int, stackBase: nat): Process {
    Process(pid, parent.pid, pid, false, true, false, Ready, 0, parent.segments, stackBase, 0, 0, 0)
  }

  function CloneThread(parent: Process, pid: int, ctid: nat): Process {
    Process(pid, parent.pid, if parent.tgid != 0 then parent.tgid else parent.pid, true, true, false, Ready, 0,
            parent.segments, parent.stackBase, 0, 0, ctid)
  }

  /** A zeroed slot that has been given its pid. */
  function Blank(pid: int): Process {
    Process(pid, 0, 0, false, false, false, Free, 0, [], 0, 0, 0, 0)
  }

  /**
   What the new slot `k` copies from: it is cleared first, so a caller without an active slot may find itself
   blank.
   */
  function Original(s: Sys, k: nat): Process
    requires Shaped(s)
  {
    if k == s.current then Blank(s.nextPid) else s.table[s.current]
  }

  /** `process_fork` with the stack that `alloc_pages` gave; nothing happens when the table is full. */
  function Fork(s: Sys, stackBase: nat): (r: Sys)
    requires Shaped(s)
    ensures Shaped(r)
  {
    var k := FirstInactive(s.table, 1);
    if k == MAX_PROCESSES then s
    else s.(table := s.table[k := ForkChild(Original(s, k), s.nextPid, stackBase)], nextPid := s.nextPid + 1)
  }

  /** `process_clone`; without CLONE_VM it is a fork. */
  function Clone(s: Sys, shareVm: bool, ctid: nat, stackBase: nat): (r: Sys)
    requires Shaped(s)
    ensures Shaped(r)
  {
    if !shareVm then Fork(s, stackBase)
    else
      var k := FirstInactive(s.table, 1);
      if k == MAX_PROCESSES then s
      else s.(table := s.table[k := CloneThread(Original(s, k), s.nextPid, ctid)], nextPid := s.nextPid + 1)
  }

  // Futexes

  predicate WaitsOn(p: Process, addr: nat) {
    p.active && p.state.Sleeping? && p.waitChannel == addr
  }

  /** The scan of `futex_wake` from slot `i`, with `count` wakes left. */
  function WakeFrom(table: seq<Process>, addr: nat, count: int, i: nat): (r: seq<Process>)
    requires i <= |table|
    ensures |r| == |table|
    decreases |table| - i
  {
    if i == |table| || count <= 0 then table
    else if WaitsOn(table[i], addr)
    then WakeFrom(table[i := table[i].(waitChannel := 0, state := Ready)], addr, count - 1, i + 1)
    else WakeFrom(table, addr, count, i + 1)
  }

  function FutexWake(table: seq<Process>, addr: nat, count: int): (r: seq<Process>)
    ensures |r| == |table|
  {
    if addr == 0 || count <= 0 then table else WakeFrom(table, addr, count, 0)
  }

  /** How many of the slots `i..j` wait on the address. */
  function Waiters(table: seq<Process>, addr: nat, i: nat, j: nat): nat
    requires i <= j <= |table|
    decreases j - i
  {
    if i == j then 0 else (if WaitsOn(table[i], addr) then 1 else 0) + Waiters(table, addr, i + 1, j)
  }

  lemma {:induction false} WaitersElsewhere(table: seq<Process>, addr: nat, i: nat, j: nat, k: nat, p: Process)
    requires k < i <= j <= |table|
    ensures Waiters(table[k := p], addr, i, j) == Waiters(table, addr, i, j)
    decreases j - i
  {
    if i < j { WaitersElsewhere(table, addr, i + 1, j, k, p); }
  }

  /** `futex_wake` wakes the first `count` waiters in slot order and touches no other slot. */
  lemma {:induction false} WakesFirstWaiters(table: seq<Process>, addr: nat, count: int, i: nat, j: nat)
    requires i <= |table| && j < |table| && addr != 0
    ensures WakeFrom(table, addr, count, i)[j] ==
            if i <= j && WaitsOn(table[j], addr) && Waiters(table, addr, i, j) < count
            then table[j].(waitChannel := 0, state := Ready) else table[j]
    decreases |table| - i
  {
    if i < |table| && count > 0 {
      if WaitsOn(table[i], addr) {
        var woken := table[i].(waitChannel := 0, state := Ready);
        WakesFirstWaiters(table[i := woken], addr, count - 1, i + 1, j);
        if i < j { WaitersElsewhere(table, addr, i + 1, j, i, woken); }
      } else {
        WakesFirstWaiters(table, addr, count, i + 1, j);
      }
    }
  }

  /** One turn of the scan, for the loop that performs it. */
  lemma WakeStep(table: seq<Process>, addr: nat, count: int, i: nat)
    requires i <= |table|
    ensures WakeFrom(table, addr, count, i) ==
            if i == |table| || count <= 0 then table
            else if WaitsOn(table[i], addr)
            then WakeFrom(table[i := table[i].(waitChannel := 0, state := Ready)], addr, count - 1, i + 1)
            else WakeFrom(table, addr, count, i + 1)
  {
  }

  lemma WaitersStep(table: seq<Process>, addr: nat, i: nat, j: nat)
    requires i <= j <= |table|
    ensures Waiters(table, addr, i, j) ==
            if i == j then 0 else (if WaitsOn(table[i], addr) then 1 else 0) + Waiters(table, addr, i + 1, j)
  {
  }

  /** `futex_wait` up to the point where the process sleeps; `word` is what the address holds. */
  function FutexWait(s: Sys, addr: nat, word: int, val: int): (r: Sys)
    requires Shaped(s)
    ensures Shaped(r)
  {
    if addr == 0 || word != val then s
    else s.(table := s.table[s.current := s.table[s.current].(waitChannel := addr, state := Sleeping)])
  }

  // Exit, kill and wait

  function Terminated(p: Process, code: int): Process {
    p.(exited := true, exitCode := code, state := Zombie, active := false)
  }

  function EndChild(p: Process, pid: int, code: int): Process {
    if p.active && p.ppid == pid then Terminated(p, code) else p
  }

  function ReadyIf(p: Process, pid: int): Process {
    if p.active && p.pid == pid && p.state.Sleeping? then p.(state := Ready) else p
  }

  /** End every active child of `pid`. */
  function EndChildren(table: seq<Process>, pid: int, code: int): (r: seq<Process>)
    ensures |r| == |table|
  {
    seq(|table|, i requires 0 <= i < |table| => EndChild(table[i], pid, code))
  }

  /** Make the sleeping process `pid` ready; its wait channel stays as it is. */
  function WakeParent(table: seq<Process>, pid: int): (r: seq<Process>)
    ensures |r| == |table|
  {
    seq(|table|, i requires 0 <= i < |table| => ReadyIf(table[i], pid))
  }

  /** `process_exit` for a process other than pid 1, up to its idle loop. */
  function Exit(s: Sys, code: int): (r: Sys)
    requires Shaped(s)
    ensures Shaped(r)
  {
    var ctid := s.table[s.current].clearChildTid;
    var table := if ctid != 0 then FutexWake(s.table, ctid, 1) else s.table;
    var p := table[s.current];
    if p.isThread then
      s.(table := table[s.current := p.(state := Zombie, exitCode := code, active := false)])
    else
      var ended := table[s.current := p.(exited := true, exitCode := code, state := Zombie)];
      s.(table := WakeParent(EndChildren(ended, p.pid, code), p.ppid))
  }

  /** The first active slot from `i` on with the given pid. */
  function FindPid(table: seq<Process>, pid: int, i: nat): (k: nat)
    requires i <= |table|
    ensures i <= k <= |table|
    ensures forall j :: i <= j < k ==> !(table[j].active && table[j].pid == pid)
    ensures k < |table| ==> table[k].active && table[k].pid == pid
    decreases |table| - i
  {
    if i == |table| || (table[i].active && table[i].pid == pid) then i else FindPid(table, pid, i + 1)
  }

  function Kill(s: Sys, pid: int, sig: int): (r: Sys)
    requires Shaped(s)
    ensures Shaped(r)
  {
    var k := FindPid(s.table, pid, 0);
    if k == MAX_PROCESSES then s
    else s.(table := WakeParent(s.table[k := Terminated(s.table[k], sig)], s.table[k].ppid))
  }

  predicate IsWaitedFor(p: Process, pid: int, parent: int) {
    p.active && (p.pid == pid || (pid <= 0 && p.ppid == parent))
  }

  predicate Reapable(p: Process, pid: int, parent: int) {
    IsWaitedFor(p, pid, parent) && (p.state.Zombie? || p.exited)
  }

  function FirstReapable(table: seq<Process>, pid: int, parent: int, i: nat): (k: nat)
    requires i <= |table|
    ensures i <= k <= |table|
    ensures forall j :: i <= j < k ==> !Reapable(table[j], pid, parent)
    ensures k < |table| ==> Reapable(table[k], pid, parent)
    decreases |table| - i
  {
    if i == |table| || Reapable(table[i], pid, parent) then i else FirstReapable(table, pid, parent, i + 1)
  }

  /** One scan of `process_wait4`: a finished child, if there is one, gives up its slot. */
  function Wait(s: Sys, pid: int): (r: Sys)
    requires Shaped(s)
    ensures Shaped(r)
  {
    var k := FirstReapable(s.table, pid, s.table[s.current].pid, 0);
    if k == MAX_PROCESSES then s
    else s.(table := s.table[k := s.table[k].(active := false, exited := false, state := Free)])
  }

  /** No other active slot has this slot's pid. */
  ghost predicate OnlyHolder(table: seq<Process>, k: nat)
    requires k < |table|
  {
    forall i :: 0 <= i < |table| && i != k && table[i].active ==> table[i].pid != table[k].pid
  }

  /** What exit does to each other slot. */
  lemma ExitSlots(s: Sys, code: int, i: nat)
    requires Shaped(s) && !s.table[s.current].isThread && i < MAX_PROCESSES && i != s.current
    ensures var p, t := s.table[s.current], Exit(s, code);
            && t.table[i].pid == s.table[i].pid && t.table[i].ppid == s.table[i].ppid
            && (t.table[i].active <==> s.table[i].active && s.table[i].ppid != p.pid)
            && (t.table[i].active && s.table[i].pid == p.ppid ==> !t.table[i].state.Sleeping?)
  {
    FutexWakeIdentity(s.table, s.table[s.current].clearChildTid, 1);
  }

  lemma {:induction false} WakeFromIdentity(table: seq<Process>, addr: nat, count: int, i: nat)
    requires i <= |table|
    ensures forall j :: 0 <= j < |table| ==> WakeFrom(table, addr, count, i)[j] ==
                                             table[j].(waitChannel := WakeFrom(table, addr, count, i)[j].waitChannel,
                                                       state := WakeFrom(table, addr, count, i)[j].state)
    decreases |table| - i
  {
    if i < |table| && count > 0 {
      if WaitsOn(table[i], addr) {
        WakeFromIdentity(table[i := table[i].(waitChannel := 0, state := Ready)], addr, count - 1, i + 1);
      } else {
        WakeFromIdentity(table, addr, count, i + 1);
      }
    }
  }

  /** A wake changes nothing but wait channels and states. */
  lemma FutexWakeIdentity(table: seq<Process>, addr: nat, count: int)
    ensures var r := FutexWake(table, addr, count);
            forall j :: 0 <= j < |table| ==> r[j] == table[j].(waitChannel := r[j].waitChannel, state := r[j].state)
  {
    WakeFromIdentity(table, addr, count, 0);
  }

  /** After the exit of the current process, as its parent in slot `q` finds things. */
  ghost predicate ExitMeetsWait(s: Sys, q: nat, code: int)
    requires Shaped(s) && q < MAX_PROCESSES
  {
    var p, t := s.table[s.current], Exit(s, code);
    && t.table[s.current].exitCode == code && t.table[q].active && !t.table[q].state.Sleeping?
    && FirstReapable(t.table, p.pid, p.ppid, 0) == s.current
    && Wait(t.(current := q), p.pid).table ==
       t.table[s.current := t.table[s.current].(active := false, exited := false, state := Free)]
    && forall i :: 0 <= i < MAX_PROCESSES && i != s.current && t.table[i].active ==> t.table[i].ppid != p.pid
  }

  /**
   An exit and a wait meet: the parent is awake, finds the child by its pid with the exit code it gave,
   and frees that slot and no other; the exiting process leaves no active child behind.
   */
  lemma ExitThenWait(s: Sys, q: nat, code: int)
    requires Shaped(s) && q < MAX_PROCESSES && q != s.current && OnlyHolder(s.table, s.current)
    requires var p := s.table[s.current]; p.active && !p.isThread && p.pid > 0 && p.ppid != p.pid
    requires s.table[q].active && s.table[q].pid == s.table[s.current].ppid && s.table[q].ppid != s.table[s.current].pid
    ensures ExitMeetsWait(s, q, code)
  {
    var p, t := s.table[s.current], Exit(s, code);
    FutexWakeIdentity(s.table, p.clearChildTid, 1);
    forall i | 0 <= i < MAX_PROCESSES && i != s.current
      ensures t.table[i].active ==> t.table[i].ppid != p.pid && t.table[i].pid != p.pid
    {
      ExitSlots(s, code, i);
    }
    ExitSlots(s, code, q);
    assert Reapable(t.table[s.current], p.pid, p.ppid);
  }

  /** A killed process cannot be waited for: its slot is given up at once and its status is lost. */
  lemma KillThenWait(s: Sys, pid: int, sig: int, parent: int)
    requires Shaped(s) && pid > 0 && FindPid(s.table, pid, 0) < MAX_PROCESSES &&
             OnlyHolder(s.table, FindPid(s.table, pid, 0))
    ensures forall i :: 0 <= i < MAX_PROCESSES ==> !IsWaitedFor(Kill(s, pid, sig).table[i], pid, parent)
    ensures FirstReapable(Kill(s, pid, sig).table, pid, parent, 0) == MAX_PROCESSES
  {
  }

  // Runs

  datatype Event =
    | TickEvent
    | ForkEvent(stackBase: nat)
    | CloneEvent(shareVm: bool, ctid: nat, stackBase: nat)
    | ExitEvent(code: int)
    | KillEvent(pid: int, sig: int)
    | WaitEvent(pid: int)
    | FutexWaitEvent(addr: nat, word: int, val: int)
    | FutexWakeEvent(addr: nat, count: int)
    | SleepEvent(ticks: nat)
    | MapEvent(page: nat, frame: nat)
    | UnmapEvent(page: nat)

  function Apply(s: Sys, e: Event): (r: Sys)
    requires Shaped(s)
    ensures Shaped(r)
  {
    match e
    case TickEvent => Tick(s)
    case ForkEvent(stackBase) => Fork(s, stackBase)
    case CloneEvent(shareVm, ctid, stackBase) => Clone(s, shareVm, ctid, stackBase)
    case ExitEvent(code) => Exit(s, code)
    case KillEvent(pid, sig) => Kill(s, pid, sig)
    case WaitEvent(pid) => Wait(s, pid)
    case FutexWaitEvent(addr, word, val) => FutexWait(s, addr, word, val)
    case FutexWakeEvent(addr, count) => s.(table := FutexWake(s.table, addr, count))
    case SleepEvent(ticks) =>
      s.(table := s.table[s.current := s.table[s.current].(sleepTicks := ticks, state := Sleeping)])
    case MapEvent(page, frame) => s.(pages := s.pages[page := frame])
    case UnmapEvent(page) => s.(pages := s.pages - {page})
  }

  /** The page belongs to a recorded segment or to the stack of `p`. */
  ghost predicate Recorded(p: Process, page: nat) {
    || (exists i :: 0 <= i < |p.segments| &&
          p.segments[i].virtAddr / 4096 <= page < p.segments[i].virtAddr / 4096 + p.segments[i].numPages)
    || (p.stackBase != 0 && STACK_PAGE <= page < STACK_PAGE + USER_STACK_PAGES)
  }

  /**
   A fork leaves the caller its own pages: it gets a slot other than the caller's, or no stack, or the stack
   that is mapped already.
   */
  ghost predicate KeepsOwnStack(s: Sys, stackBase: nat)
    requires Shaped(s)
  {
    || FirstInactive(s.table, 1) != s.current || stackBase == 0
    || RunAgrees(s.pages, STACK_PAGE, stackBase, USER_STACK_PAGES)
  }

  /**
   What the guarantee assumes of a run: a fork keeps the caller's stack, pid 1 does not exit
   (the machine halts), and none of the recorded pages is mapped anew or unmapped.
   */
  ghost predicate Allowed(s: Sys, e: Event)
    requires Shaped(s)
  {
    var p := s.table[s.current];
    match e
    case ForkEvent(stackBase) => KeepsOwnStack(s, stackBase)
    case CloneEvent(shareVm, _, stackBase) => shareVm || KeepsOwnStack(s, stackBase)
    case ExitEvent(_) => p.pid != 1
    case MapEvent(page, _) => !Recorded(p, page)
    case UnmapEvent(page) => !Recorded(p, page)
    case _ => true
  }

  /** Slots whose segments can come into play at the next switch. */
  predicate Member(s: Sys, i: nat)
    requires Shaped(s) && i < MAX_PROCESSES
  {
    i == 0 || i == s.current || s.table[i].active
  }

  predicate SameSpace(p: Process, q: Process) {
    p.segments == q.segments && p.stackBase == q.stackBase
  }

  ghost predicate GroupsShare(s: Sys)
    requires Shaped(s)
  {
    forall i: nat, j: nat | i < MAX_PROCESSES && j < MAX_PROCESSES && Member(s, i) && Member(s, j)
      :: s.table[i].tgid == s.table[j].tgid ==> SameSpace(s.table[i], s.table[j])
  }

  predicate SlotOk(s: Sys, i: nat)
    requires Shaped(s) && i < MAX_PROCESSES
  {
    var p := s.table[i];
    && p.pid < s.nextPid && p.tgid < s.nextPid
    && (Member(s, i) ==> p.tgid > 0)
    && (i == 0 ==> !p.isThread)
    && (p.active && p.state.Running? ==> i == s.current)
  }

  ghost predicate SlotsOk(s: Sys)
    requires Shaped(s)
  {
    s.nextPid > 0 && forall i: nat :: i < MAX_PROCESSES ==> SlotOk(s, i) && PageDisjoint(s.table[i].segments)
  }

  ghost predicate Inv(s: Sys) {
    Shaped(s) && SlotsOk(s) && GroupsShare(s) && Agrees(s.pages, s.table[s.current])
  }

  /** Nothing that identifies a slot's address space changed, and no slot became active or running. */
  predicate Calm(p: Process, q: Process) {
    && q.pid == p.pid && q.tgid == p.tgid && q.isThread == p.isThread && SameSpace(p, q)
    && (q.active ==> p.active) && (q.active && q.state.Running? ==> p.state.Running?)
  }

  /** A step that is calm on every slot keeps the invariant. */
  lemma CalmStep(s: Sys, r: Sys)
    requires Inv(s) && Shaped(r) && r.current == s.current && r.nextPid == s.nextPid && r.pages == s.pages
    requires forall i :: 0 <= i < MAX_PROCESSES ==> Calm(s.table[i], r.table[i])
    ensures Inv(r)
  {
    forall i: nat | i < MAX_PROCESSES ensures SlotOk(r, i) && PageDisjoint(r.table[i].segments) {
      assert SlotOk(s, i) && Calm(s.table[i], r.table[i]);
    }
    forall i: nat, j: nat | i < MAX_PROCESSES && j < MAX_PROCESSES && Member(r, i) && Member(r, j) &&
                            r.table[i].tgid == r.table[j].tgid ensures SameSpace(r.table[i], r.table[j]) {
      assert Calm(s.table[i], r.table[i]) && Calm(s.table[j], r.table[j]);
      assert Member(s, i) && Member(s, j);
    }
    assert Calm(s.table[s.current], r.table[s.current]);
  }

  lemma {:induction false} WakeFromCalm(table: seq<Process>, addr: nat, count: int, i: nat)
    requires i <= |table|
    ensures forall j :: 0 <= j < |table| ==> Calm(table[j], WakeFrom(table, addr, count, i)[j])
    decreases |table| - i
  {
    if i < |table| && count > 0 {
      if WaitsOn(table[i], addr) {
        WakeFromCalm(table[i := table[i].(waitChannel := 0, state := Ready)], addr, count - 1, i + 1);
      } else {
        WakeFromCalm(table, addr, count, i + 1);
      }
    }
  }

  lemma FutexWakeCalm(table: seq<Process>, addr: nat, count: int)
    ensures forall j :: 0 <= j < |table| ==> Calm(table[j], FutexWake(table, addr, count)[j])
  {
    if addr != 0 && count > 0 { WakeFromCalm(table, addr, count, 0); }
  }

  /** A new slot other than the caller's, with its own group or in the caller's. */
  lemma SpawnKeepsInv(s: Sys, k: nat, child: Process)
    requires Inv(s) && 0 < k < MAX_PROCESSES && !s.table[k].active && k != s.current
    requires child.pid == s.nextPid && child.segments == s.table[s.current].segments && child.state.Ready?
    requires child.tgid == s.nextPid || (child.tgid == s.table[s.current].tgid && SameSpace(child, s.table[s.current]))
    ensures Inv(s.(table := s.table[k := child], nextPid := s.nextPid + 1))
  {
    var r := s.(table := s.table[k := child], nextPid := s.nextPid + 1);
    assert SlotOk(s, s.current) && Member(s, s.current);
    forall i: nat | i < MAX_PROCESSES ensures SlotOk(r, i) && PageDisjoint(r.table[i].segments) {
      assert SlotOk(s, i) && PageDisjoint(s.table[s.current].segments);
    }
    forall i: nat, j: nat | i < MAX_PROCESSES && j < MAX_PROCESSES && Member(r, i) && Member(r, j) &&
                            r.table[i].tgid == r.table[j].tgid ensures SameSpace(r.table[i], r.table[j]) {
      assert SlotOk(s, i) && SlotOk(s, j) && Member(s, s.current);
      assert i != k ==> Member(s, i);
      assert j != k ==> Member(s, j);
    }
  }

  /** A new process in the caller's own slot: a group of its own and no segments. */
  lemma SpawnHereInv(s: Sys, child: Process)
    requires Inv(s) && s.current > 0 && child.pid == child.tgid == s.nextPid && child.segments == []
    requires child.state.Ready? && Agrees(s.pages, child)
    ensures Inv(s.(table := s.table[s.current := child], nextPid := s.nextPid + 1))
  {
    var r := s.(table := s.table[s.current := child], nextPid := s.nextPid + 1);
    forall i: nat | i < MAX_PROCESSES ensures SlotOk(r, i) && PageDisjoint(r.table[i].segments) {
      assert SlotOk(s, i) && PageDisjoint(s.table[i].segments);
    }
    forall i: nat, j: nat | i < MAX_PROCESSES && j < MAX_PROCESSES && Member(r, i) && Member(r, j) &&
                            r.table[i].tgid == r.table[j].tgid ensures SameSpace(r.table[i], r.table[j]) {
      assert SlotOk(s, i) && SlotOk(s, j);
      assert Member(s, i) && Member(s, j);
    }
  }

  /** The first two steps of the tick leave no active slot running but change no identity. */
  lemma PreemptedSlots(s: Sys)
    requires Inv(s)
    ensures var table := Preempted(s.table, s.current);
            forall i :: 0 <= i < MAX_PROCESSES ==>
              && SameSpace(table[i], s.table[i]) && table[i].tgid == s.table[i].tgid && table[i].pid == s.table[i].pid
              && table[i].isThread == s.table[i].isThread && table[i].active == s.table[i].active
              && !(table[i].active && table[i].state.Running?)
  {
    forall i: nat | i < MAX_PROCESSES ensures SlotOk(s, i) {}
  }

  lemma TickKeepsInv(s: Sys)
    requires Inv(s)
    ensures Inv(Tick(s))
  {
    var table := Preempted(s.table, s.current);
    var next := Select(table, s.current);
    PreemptedSlots(s);
    assert Member(s, next);
    SwitchAgrees(s, table, next);
    TickedSlots(s, table, next);
    var r := Tick(s);
    assert Agrees(r.pages, r.table[next]);
  }

  lemma TickedSlots(s: Sys, table: seq<Process>, next: nat)
    requires Inv(s) && next < MAX_PROCESSES && Member(s, next) && |table| == MAX_PROCESSES
    requires forall i :: 0 <= i < MAX_PROCESSES ==>
              && SameSpace(table[i], s.table[i]) && table[i].tgid == s.table[i].tgid && table[i].pid == s.table[i].pid
              && table[i].isThread == s.table[i].isThread && table[i].active == s.table[i].active
              && !(table[i].active && table[i].state.Running?)
    ensures var r := s.(table := table[next := table[next].(state := Running)], current := next);
            SlotsOk(r) && GroupsShare(r)
  {
    var r := s.(table := table[next := table[next].(state := Running)], current := next);
    forall i: nat | i < MAX_PROCESSES ensures SlotOk(r, i) && PageDisjoint(r.table[i].segments) {
      assert SlotOk(s, i);
    }
    forall i: nat, j: nat | i < MAX_PROCESSES && j < MAX_PROCESSES && Member(r, i) && Member(r, j) &&
                            r.table[i].tgid == r.table[j].tgid ensures SameSpace(r.table[i], r.table[j]) {
      assert Member(s, i) && Member(s, j);
    }
  }

  /** Even when the switch skips the remap, the next process finds its own pages. */
  lemma SwitchAgrees(s: Sys, table: seq<Process>, next: nat)
    requires Inv(s) && next < MAX_PROCESSES && Member(s, next) && |table| == MAX_PROCESSES
    requires forall i :: 0 <= i < MAX_PROCESSES ==>
               SameSpace(table[i], s.table[i]) && table[i].tgid == s.table[i].tgid &&
                 table[i].isThread == s.table[i].isThread
    ensures Agrees(SwitchPages(s.pages, table, s.current, next), table[next])
  {
    if next == s.current {
    } else if !table[next].isThread || table[next].tgid != table[s.current].tgid {
      assert SlotOk(s, next) && PageDisjoint(s.table[next].segments);
      RemapAgrees(s.pages, table[next]);
    } else {
      assert Member(s, s.current);
      assert SameSpace(s.table[next], s.table[s.current]);
    }
  }

  lemma ExitKeepsInv(s: Sys, code: int)
    requires Inv(s)
    ensures Inv(Exit(s, code))
  {
    var r := Exit(s, code);
    var ctid := s.table[s.current].clearChildTid;
    FutexWakeCalm(s.table, ctid, 1);
    forall i | 0 <= i < MAX_PROCESSES ensures Calm(s.table[i], r.table[i]) {
      assert Calm(s.table[i], FutexWake(s.table, ctid, 1)[i]);
    }
    CalmStep(s, r);
  }

  lemma KillKeepsInv(s: Sys, pid: int, sig: int)
    requires Inv(s)
    ensures Inv(Kill(s, pid, sig))
  {
    CalmStep(s, Kill(s, pid, sig));
  }

  lemma WaitKeepsInv(s: Sys, pid: int)
    requires Inv(s)
    ensures Inv(Wait(s, pid))
  {
    CalmStep(s, Wait(s, pid));
  }

  lemma FutexKeepsInv(s: Sys, e: Event)
    requires Inv(s) && (e.FutexWaitEvent? || e.FutexWakeEvent? || e.SleepEvent?)
    ensures Inv(Apply(s, e))
  {
    if e.FutexWakeEvent? { FutexWakeCalm(s.table, e.addr, e.count); }
    CalmStep(s, Apply(s, e));
  }

  lemma ForkKeepsInv(s: Sys, stackBase: nat)
    requires Inv(s) && KeepsOwnStack(s, stackBase)
    ensures Inv(Fork(s, stackBase))
  {
    var k := FirstInactive(s.table, 1);
    if k == s.current {
      SpawnHereInv(s, ForkChild(Blank(s.nextPid), s.nextPid, stackBase));
    } else if k < MAX_PROCESSES {
      SpawnKeepsInv(s, k, ForkChild(s.table[s.current], s.nextPid, stackBase));
    }
  }

  lemma CloneKeepsInv(s: Sys, shareVm: bool, ctid: nat, stackBase: nat)
    requires Inv(s) && (shareVm || KeepsOwnStack(s, stackBase))
    ensures Inv(Clone(s, shareVm, ctid, stackBase))
  {
    var k := FirstInactive(s.table, 1);
    assert SlotOk(s, s.current) && Member(s, s.current);
    if !shareVm {
      ForkKeepsInv(s, stackBase);
    } else if k == s.current {
      SpawnHereInv(s, CloneThread(Blank(s.nextPid), s.nextPid, ctid));
    } else if k < MAX_PROCESSES {
      SpawnKeepsInv(s, k, CloneThread(s.table[s.current], s.nextPid, ctid));
    }
  }

  lemma ApplyKeepsInv(s: Sys, e: Event)
    requires Inv(s) && Allowed(s, e)
    ensures Inv(Apply(s, e))
  {
    match e
    case TickEvent => TickKeepsInv(s);
    case ForkEvent(stackBase) => ForkKeepsInv(s, stackBase);
    case CloneEvent(shareVm, ctid, stackBase) => CloneKeepsInv(s, shareVm, ctid, stackBase);
    case ExitEvent(code) => ExitKeepsInv(s, code);
    case KillEvent(pid, sig) => KillKeepsInv(s, pid, sig);
    case WaitEvent(pid) => WaitKeepsInv(s, pid);
    case MapEvent(page, frame) => PageKeepsInv(s, page, s.pages[page := frame]);
    case UnmapEvent(page) => PageKeepsInv(s, page, s.pages - {page});
    case _ => FutexKeepsInv(s, e);
  }

  /** A page that is not recorded may be mapped anew or unmapped. */
  lemma PageKeepsInv(s: Sys, page: nat, pages: Pages)
    requires Inv(s) && !Recorded(s.table[s.current], page)
    requires forall v :: v in s.pages && v != page ==> v in pages && pages[v] == s.pages[v]
    ensures Inv(s.(pages := pages))
  {
    var r, p := s.(pages := pages), s.table[s.current];
    forall i: nat | i < MAX_PROCESSES ensures SlotOk(r, i) && PageDisjoint(r.table[i].segments) { assert SlotOk(s, i); }
    forall i: nat, j: nat | i < MAX_PROCESSES && j < MAX_PROCESSES && Member(r, i) && Member(r, j) &&
                            r.table[i].tgid == r.table[j].tgid ensures SameSpace(r.table[i], r.table[j]) {
      assert Member(s, i) && Member(s, j);
    }
    forall i | 0 <= i < |p.segments|
      ensures RunAgrees(r.pages, p.segments[i].virtAddr / 4096, p.segments[i].physAddr, p.segments[i].numPages)
    {
      assert RunAgrees(s.pages, p.segments[i].virtAddr / 4096, p.segments[i].physAddr, p.segments[i].numPages);
    }
  }

  /** A fork leaves the caller its own pages exactly when it keeps the caller's stack. */
  lemma ForkAgrees(s: Sys, stackBase: nat)
    requires Inv(s)
    ensures Agrees(Fork(s, stackBase).pages, Fork(s, stackBase).table[s.current]) <==> KeepsOwnStack(s, stackBase)
  {
  }

  /** For a caller with a stack: another slot, no new stack, or its own stack again. */
  lemma ForkAfterSelfKill(s: Sys, stackBase: nat)
    requires Inv(s) && s.table[s.current].stackBase != 0
    ensures Agrees(Fork(s, stackBase).pages, Fork(s, stackBase).table[s.current]) <==>
            FirstInactive(s.table, 1) != s.current || stackBase == 0 || stackBase == s.table[s.current].stackBase
  {
    ForkAgrees(s, stackBase);
    assert FrameFor(STACK_PAGE, stackBase, STACK_PAGE) == stackBase;
    assert s.pages[STACK_PAGE] == FrameFor(STACK_PAGE, s.table[s.current].stackBase, STACK_PAGE);
  }

  /** The table when `init` is launched: slot 0 runs pid 1, the other slots are zeroed. */
  ghost predicate IsBoot(s: Sys) {
    && Shaped(s) && s.current == 0 && s.nextPid == 2
    && (forall i :: 0 < i < MAX_PROCESSES ==>
                      s.table[i] == Blank(0))
    && var p := s.table[0];
       && p.pid == 1 && p.ppid == 0 && p.tgid == 1 && !p.isThread && p.active && p.state.Running?
       && PageDisjoint(p.segments) && Agrees(s.pages, p)
  }

  function Run(s: Sys, events: seq<Event>): (r: Sys)
    requires Shaped(s)
    ensures Shaped(r)
    decreases |events|
  {
    if events == [] then s else Apply(Run(s, events[..|events| - 1]), events[|events| - 1])
  }

  ghost predicate AllowedRun(s: Sys, events: seq<Event>)
    requires Shaped(s)
  {
    forall i :: 0 <= i < |events| ==> Allowed(Run(s, events[..i]), events[i])
  }

  /** The invariant is kept by every allowed run, wherever it starts. */
  lemma {:induction false} RunKeepsInv(s: Sys, events: seq<Event>)
    requires Inv(s) && AllowedRun(s, events)
    ensures Inv(Run(s, events))
    decreases |events|
  {
    hide SlotsOk, GroupsShare, Agrees, Apply, Allowed;
    if events != [] {
      var n := |events| - 1;
      forall i | 0 <= i < n ensures Allowed(Run(s, events[..n][..i]), events[..n][i]) {
        assert events[..n][..i] == events[..i];
      }
      RunKeepsInv(s, events[..n]);
      assert Allowed(Run(s, events[..n]), events[n]);
      ApplyKeepsInv(Run(s, events[..n]), events[n]);
    }
  }

  /** In every allowed run the current process sees its own frames at its recorded pages, and only it is running. */
  lemma AlwaysOwnPages(s: Sys, events: seq<Event>)
    requires IsBoot(s) && AllowedRun(s, events)
    ensures Inv(Run(s, events))
  {
    hide Run, AllowedRun;
    BootInv(s);
    RunKeepsInv(s, events);
  }

  lemma BootInv(s: Sys)
    requires IsBoot(s)
    ensures Inv(s)
  {
  }

  /** The first child of the first process, ready or running in slot 1. */
  ghost predicate FirstChild(s: Sys, a: nat) {
    && Shaped(s) && s.table[0].pid == 1 && s.table[1].pid == 2 && s.table[1].active && !s.table[1].isThread
    && s.table[1].stackBase == a
  }

  lemma BootForks(s: Sys, a: nat)
    requires IsBoot(s)
    ensures FirstChild(Fork(s, a), a) && CanRun(Fork(s, a).table[1]) && Fork(s, a).current == 0
  {
  }

  lemma ChildRuns(s: Sys, a: nat)
    requires FirstChild(s, a) && CanRun(s.table[1]) && s.current == 0
    ensures FirstChild(Tick(s), a) && Tick(s).current == 1
  {
    assert (0 + 1) % MAX_PROCESSES == 1;
    assert CanRun(Preempted(s.table, 0)[1]);
  }

  lemma ChildKillsItself(s: Sys, a: nat)
    requires FirstChild(s, a) && s.current == 1
    ensures var t := Kill(s, 2, 9);
            t.current == 1 && t.table[1].stackBase == a && FirstInactive(t.table, 1) == 1
  {
    assert FindPid(s.table, 2, 0) == 1;
  }

  lemma RunOfThree(s: Sys, e0: Event, e1: Event, e2: Event)
    requires Shaped(s) && Allowed(s, e0) && Allowed(Apply(s, e0), e1) && Allowed(Apply(Apply(s, e0), e1), e2)
    ensures Run(s, [e0, e1, e2]) == Apply(Apply(Apply(s, e0), e1), e2) && AllowedRun(s, [e0, e1, e2])
  {
    hide Apply, Allowed;
    var es := [e0, e1, e2];
    assert es[..0] == [] && es[..1] == [e0] && es[..2] == [e0, e1];
    assert [e0][..0] == [] && [e0, e1][..1] == [e0];
    assert Run(s, es[..1]) == Apply(s, e0);
    assert Run(s, es[..2]) == Apply(Apply(s, e0), e1);
  }

  /** From boot: fork, switch to the child, let it kill itself and fork again; its stack is then not its own. */
  lemma SelfKillReachable(s: Sys, a: nat, b: nat)
    requires IsBoot(s) && a != 0 && b != 0 && a != b
    ensures var events := [ForkEvent(a), TickEvent, KillEvent(2, 9)];
            var t := Run(s, events);
            AllowedRun(s, events) && !Agrees(Fork(t, b).pages, Fork(t, b).table[t.current])
  {
    BootForks(s, a);
    ChildRuns(Fork(s, a), a);
    ChildKillsItself(Tick(Fork(s, a)), a);
    RunOfThree(s, ForkEvent(a), TickEvent, KillEvent(2, 9));
    AlwaysOwnPages(s, [ForkEvent(a), TickEvent, KillEvent(2, 9)]);
    ForkAfterSelfKill(Kill(Tick(Fork(s, a)), 2, 9), b);
  }

  // Bounded waiting

  /** How many steps of the cyclic scan lead from `current` to `p`; a full round for `current` itself. */
  function Distance(current: nat, p: nat): (d: nat)
    requires current < MAX_PROCESSES && p < MAX_PROCESSES
    ensures 1 <= d <= MAX_PROCESSES && (current + d) % MAX_PROCESSES == p
  {
    if p > current then p - current else p + MAX_PROCESSES - current
  }

  /** The scan stops no later than at a ready process ahead of it. */
  lemma {:induction false} ScanStopsBefore(table: seq<Process>, current: nat, d: nat, p: nat)
    requires |table| == MAX_PROCESSES && current < MAX_PROCESSES && p < MAX_PROCESSES && CanRun(table[p])
    requires 1 <= d <= Distance(current, p)
    ensures var r := NextReady(table, current, d);
            r.Some? && d <= Distance(current, r.value) <= Distance(current, p)
    decreases MAX_PROCESSES - d
  {
    if !CanRun(table[(current + d) % MAX_PROCESSES]) {
      ScanStopsBefore(table, current, d + 1, p);
    }
  }

  /** A tick either selects a ready process or moves closer to it. */
  lemma TickApproaches(s: Sys, p: nat)
    requires Shaped(s) && p < MAX_PROCESSES && CanRun(s.table[p])
    ensures Tick(s).current == p || Distance(Tick(s).current, p) < Distance(s.current, p)
  {
    var table := Preempted(s.table, s.current);
    ScanStopsBefore(table, s.current, 1, p);
  }

  /**
   States before successive ticks: between ticks anything may happen to the
   other processes, but `p` is active and ready each time and only ticks move
   `current`.
   */
  ghost predicate Waiting(ss: seq<Sys>, p: nat) {
    && p < MAX_PROCESSES
    && (forall i :: 0 <= i < |ss| ==> Shaped(ss[i]) && CanRun(ss[i].table[p]))
    && (forall i :: 0 <= i < |ss| - 1 ==> ss[i + 1].current == Tick(ss[i]).current)
  }

  /** A process that stays ready is selected within a round of MAX_PROCESSES ticks. */
  lemma {:induction false} SelectedWithinRound(ss: seq<Sys>, p: nat) returns (k: nat)
    requires Waiting(ss, p) && ss != [] && |ss| >= Distance(ss[0].current, p)
    ensures k < Distance(ss[0].current, p) && Tick(ss[k]).current == p
    decreases |ss|
  {
    TickApproaches(ss[0], p);
    if Tick(ss[0]).current == p {
      k := 0;
    } else {
      k := SelectedWithinRound(ss[1..], p);
      k := k + 1;
    }
  }

  // The table in place

  class ProcessTable {
    const table: array<Process>
    var current: nat
    var nextPid: int
    var pages: Pages

    ghost predicate Valid()
      reads this
    {
      table.Length == MAX_PROCESSES && current < MAX_PROCESSES
    }

    ghost function View(): Sys
      reads this, table
    {
      Sys(table[..], current, nextPid, pages)
    }

    constructor (current: nat, nextPid: int, pages: Pages, slots: seq<Process>)
      requires |slots| == MAX_PROCESSES && current < MAX_PROCESSES
      ensures Valid() && View() == Sys(slots, current, nextPid, pages)
    {
      table := new Process[MAX_PROCESSES](i requires 0 <= i < MAX_PROCESSES => slots[i]);
      this.current, this.nextPid, this.pages := current, nextPid, pages;
      new;
      assert table[..] == slots;
    }

    method SchedulerTick()
      requires Valid()
      modifies this, table
      ensures Valid() && View() == Tick(old(View()))
    {
      ghost var slots := table[..];
      RunTimers();
      if table[current].active {
        if table[current].state.Running? {
          table[current] := table[current].(state := Ready);
        }
      }
      assert table[..] == Preempted(slots, current);

      var next := PickNext();
      if next != current {
        if !table[next].isThread || table[next].tgid != table[current].tgid {
          RemapPages(table[next]);
        }
        current := next;
      }
      table[next] := table[next].(state := Running);
    }

    /** Step 1 of the tick. */
    method RunTimers()
      requires Valid()
      modifies table
      ensures table[..] == TickSleepers(old(table[..]))
    {
      ghost var slots := table[..];
      for i := 0 to MAX_PROCESSES
        invariant forall j :: 0 <= j < MAX_PROCESSES ==> table[j] == if j < i then TickSleeper(slots[j]) else slots[j]
      {
        if table[i].active && table[i].state.Sleeping? {
          if table[i].sleepTicks > 0 {
            table[i] := table[i].(sleepTicks := table[i].sleepTicks - 1);
            if table[i].sleepTicks == 0 && table[i].waitChannel == 0 {
              table[i] := table[i].(state := Ready);
            }
          }
        }
      }
    }

    /** Step 3 of the tick. */
    method PickNext() returns (next: nat)
      requires Valid()
      ensures next == Select(table[..], current)
    {
      var i := 1;
      while i <= MAX_PROCESSES
        invariant 1 <= i <= MAX_PROCESSES + 1
        invariant NextReady(table[..], current, 1) == NextReady(table[..], current, i)
      {
        var candidate := (current + i) % MAX_PROCESSES;
        if table[candidate].active && table[candidate].state.Ready? {
          return candidate;
        }
        i := i + 1;
      }
      if table[current].active && (table[current].state.Ready? || table[current].state.Running?) {
        return current;
      }
      return 0;
    }

    /** The remapping loop of the tick. */
    method RemapPages(p: Process)
      modifies this`pages
      ensures pages == Remap(old(pages), p)
    {
      for s := 0 to |p.segments|
        invariant pages == MapSegments(old(pages), p.segments[..s])
      {
        pages := MapRun(pages, p.segments[s].virtAddr / 4096, p.segments[s].physAddr, p.segments[s].numPages);
        assert p.segments[..s + 1][..s] == p.segments[..s];
      }
      assert p.segments[..|p.segments|] == p.segments;
      if p.stackBase != 0 {
        pages := MapRun(pages, STACK_PAGE, p.stackBase, USER_STACK_PAGES);
      }
    }

    /** The slot search shared by fork and clone. */
    method FreeSlot() returns (slot: nat)
      requires Valid()
      ensures slot == FirstInactive(table[..], 1)
    {
      slot := 1;
      while slot < MAX_PROCESSES
        invariant 1 <= slot <= MAX_PROCESSES
        invariant FirstInactive(table[..], 1) == FirstInactive(table[..], slot)
      {
        if !table[slot].active { return; }
        slot := slot + 1;
      }
    }

    method ForkProcess(stackBase: nat) returns (pid: int)
      requires Valid()
      modifies this, table
      ensures Valid() && View() == Fork(old(View()), stackBase)
      ensures pid == if FirstInactive(old(table[..]), 1) == MAX_PROCESSES then -12 else old(nextPid)
    {
      var slot := FreeSlot();
      if slot == MAX_PROCESSES { return -12; }
      pid := nextPid;
      nextPid := nextPid + 1;
      table[slot] := Blank(pid);
      var parent := table[current];
      table[slot] := Process(pid, parent.pid, pid, false, true, false, Ready, 0, parent.segments, stackBase, 0, 0, 0);
    }

    method CloneProcess(shareVm: bool, ctid: nat, stackBase: nat) returns (pid: int)
      requires Valid()
      modifies this, table
      ensures Valid() && View() == Clone(old(View()), shareVm, ctid, stackBase)
      ensures pid == if FirstInactive(old(table[..]), 1) == MAX_PROCESSES then -12 else old(nextPid)
    {
      if !shareVm {
        pid := ForkProcess(stackBase);
        return;
      }
      var slot := FreeSlot();
      if slot == MAX_PROCESSES { return -12; }
      pid := nextPid;
      nextPid := nextPid + 1;
      table[slot] := Blank(pid);
      var parent := table[current];
      table[slot] := Process(pid, parent.pid, if parent.tgid != 0 then parent.tgid else parent.pid, true, true, false,
                             Ready, 0, parent.segments, parent.stackBase, 0, 0, ctid);
    }

    method WakeFutex(addr: nat, count: int) returns (woken: int)
      requires Valid()
      modifies table
      ensures table[..] == FutexWake(old(table[..]), addr, count)
      ensures woken == if addr == 0 || count <= 0 then 0
                       else var n := Waiters(old(table[..]), addr, 0, MAX_PROCESSES); if n < count then n else count
    {
      hide Waiters, WakeFrom;
      if addr == 0 || count <= 0 { return 0; }
      woken := 0;
      for i := 0 to MAX_PROCESSES
        invariant woken < count
        invariant Waiters(old(table[..]), addr, 0, MAX_PROCESSES) ==
                  woken + Waiters(old(table[..]), addr, i, MAX_PROCESSES)
        invariant forall j :: i <= j < MAX_PROCESSES ==> table[j] == old(table[j])
        invariant WakeFrom(table[..], addr, count - woken, i) == WakeFrom(old(table[..]), addr, count, 0)
      {
        WakeStep(table[..], addr, count - woken, i);
        WaitersStep(old(table[..]), addr, i, MAX_PROCESSES);
        if table[i].active && table[i].state.Sleeping? && table[i].waitChannel == addr {
          ghost var before := table[..];
          table[i] := table[i].(waitChannel := 0, state := Ready);
          assert table[..] == before[i := before[i].(waitChannel := 0, state := Ready)];
          woken := woken + 1;
          if woken >= count {
            WakeStep(table[..], addr, 0, i + 1);
            return;
          }
        }
      }
      WakeStep(table[..], addr, count - woken, MAX_PROCESSES);
      WaitersStep(old(table[..]), addr, MAX_PROCESSES, MAX_PROCESSES);
    }

    method ExitProcess(code: int)
      requires Valid()
      modifies table
      ensures View() == Exit(old(View()), code)
    {
      if table[current].clearChildTid != 0 {
        var _ := WakeFutex(table[current].clearChildTid, 1);
      }
      var p := table[current];
      if p.isThread {
        table[current] := p.(state := Zombie, exitCode := code, active := false);
        return;
      }
      table[current] := p.(exited := true, exitCode := code, state := Zombie);
      EndAll(p.pid, code);
      ReadyParent(p.ppid);
    }

    /** The end-the-children loop of exit. */
    method EndAll(pid: int, code: int)
      requires Valid()
      modifies table
      ensures table[..] == EndChildren(old(table[..]), pid, code)
    {
      ghost var slots := table[..];
      for i := 0 to MAX_PROCESSES
        invariant forall j :: 0 <= j < MAX_PROCESSES ==>
                  table[j] == if j < i then EndChild(slots[j], pid, code) else slots[j]
      {
        if table[i].active && table[i].ppid == pid {
          table[i] := table[i].(exited := true, exitCode := code, state := Zombie, active := false);
        }
      }
    }

    /** The wake-the-parent loop shared by exit and kill. */
    method ReadyParent(pid: int)
      requires Valid()
      modifies table
      ensures table[..] == WakeParent(old(table[..]), pid)
    {
      ghost var slots := table[..];
      for i := 0 to MAX_PROCESSES
        invariant forall j :: 0 <= j < MAX_PROCESSES ==> table[j] == if j < i then ReadyIf(slots[j], pid) else slots[j]
      {
        if table[i].active && table[i].pid == pid {
          if table[i].state.Sleeping? {
            table[i] := table[i].(state := Ready);
          }
        }
      }
    }

    method KillProcess(pid: int, sig: int) returns (result: int)
      requires Valid()
      modifies table
      ensures View() == Kill(old(View()), pid, sig)
      ensures result == if FindPid(old(table[..]), pid, 0) == MAX_PROCESSES then -3 else 0
    {
      for i := 0 to MAX_PROCESSES
        invariant table[..] == old(table[..]) && FindPid(table[..], pid, 0) == FindPid(table[..], pid, i)
      {
        if table[i].active && table[i].pid == pid {
          table[i] := table[i].(exited := true, exitCode := sig, state := Zombie, active := false);
          ReadyParent(table[i].ppid);
          return 0;
        }
      }
      return -3;
    }

    /** One scan of `process_wait4`; None means the caller idles until the next interrupt and scans again. */
    method WaitScan(pid: int) returns (result: Option<int>)
      requires Valid()
      modifies table
      ensures View() == Wait(old(View()), pid)
      ensures var parent := old(table[..])[current].pid;
              var k := FirstReapable(old(table[..]), pid, parent, 0);
              result == if k < MAX_PROCESSES then Some(old(table[..])[k].pid)
                        else if exists i :: 0 <= i < MAX_PROCESSES && IsWaitedFor(old(table[..])[i], pid, parent)
                        then None
                        else Some(-10)
    {
      var parent := table[current].pid;
      var hasChildren := false;
      for i := 0 to MAX_PROCESSES
        invariant table[..] == old(table[..])
        invariant FirstReapable(table[..], pid, parent, 0) == FirstReapable(table[..], pid, parent, i)
        invariant hasChildren <==> exists j :: 0 <= j < i && IsWaitedFor(table[j], pid, parent)
      {
        if table[i].active && (table[i].pid == pid || (pid <= 0 && table[i].ppid == parent)) {
          hasChildren := true;
          if table[i].state.Zombie? || table[i].exited {
            result := Some(table[i].pid);
            table[i] := table[i].(active := false, exited := false, state := Free);
            return;
          }
        }
      }
      if !hasChildren { return Some(-10); }
      return None;
    }

    method WaitFutex(addr: nat, word: int, val: int) returns (result: int)
      requires Valid()
      modifies table
      ensures View() == FutexWait(old(View()), addr, word, val)
      ensures result == if addr == 0 then -14 else if word != val then -11 else 0
    {
      if addr == 0 { return -14; }
      if word != val { return -11; }
      table[current] := table[current].(waitChannel := addr, state := Sleeping);
      return 0;
    }
  }
}
