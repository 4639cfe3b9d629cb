/**
 What fork and clone give the new process (kernel/process/process.c), seen when
 it runs: the caller's code and data at the frames the caller had, and its own
 stack or the caller's.
 */
module ForkRuns {
  import opened Bytes
  import opened PageTree
  import opened Processes
  import opened AddressSwitch

  /** Slot `k` came to life, and it is not the caller's. */
  predicate Born(s: Sys, r: Sys, k: nat) {
    Shaped(s) && Shaped(r) && k < MAX_PROCESSES && k != s.current && !s.table[k].active && r.table[k].active
  }

  /** Nothing but slot `k` and the next pid differs. */
  predicate OnlySlot(s: Sys, r: Sys, k: nat) {
    && k < |s.table| == |r.table| && r.current == s.current && r.pages == s.pages && r.nextPid == s.nextPid + 1
    && forall i :: 0 <= i < |s.table| && i != k ==> r.table[i] == s.table[i]
  }

  /** The new slot is the lowest free one above slot 0; it can run and is a process of its own, the caller's child. */
  lemma ForkSpawns(s: Sys, stackBase: nat, k: nat)
    requires Shaped(s) && 0 < k < MAX_PROCESSES && k != s.current && !s.table[k].active
    requires forall i :: 0 < i < k ==> s.table[i].active
    ensures var r := Fork(s, stackBase);
            && Born(s, r, k) && OnlySlot(s, r, k) && CanRun(r.table[k])
            && r.table[k].pid == r.table[k].tgid == s.nextPid && r.table[k].ppid == s.table[s.current].pid
            && !r.table[k].isThread && !r.table[k].exited && r.table[k].waitChannel == 0 && r.table[k].sleepTicks == 0
            && r.table[k].clearChildTid == 0 && r.table[k].exitCode == 0
  {
    assert FirstInactive(s.table, 1) == k;
  }

  /** With no free slot above slot 0 nothing happens. */
  lemma NoneSpawned(s: Sys, shareVm: bool, ctid: nat, stackBase: nat)
    requires Shaped(s) && forall i :: 0 < i < MAX_PROCESSES ==> s.table[i].active
    ensures Fork(s, stackBase) == s && Clone(s, shareVm, ctid, stackBase) == s
  {
  }

  /** A clone that shares memory is a thread of the caller's group. */
  lemma CloneSpawns(s: Sys, ctid: nat, stackBase: nat, k: nat)
    requires Shaped(s) && 0 < k < MAX_PROCESSES && k != s.current && !s.table[k].active
    requires forall i :: 0 < i < k ==> s.table[i].active
    ensures var r := Clone(s, true, ctid, stackBase);
            && Born(s, r, k) && OnlySlot(s, r, k) && CanRun(r.table[k]) && r.table[k].pid == s.nextPid
            && (s.table[s.current].tgid != 0 ==> r.table[k].tgid == s.table[s.current].tgid)
            && (s.table[s.current].tgid == 0 ==> r.table[k].tgid == s.table[s.current].pid)
            && r.table[k].ppid == s.table[s.current].pid && r.table[k].isThread && !r.table[k].exited
            && r.table[k].waitChannel == 0 && r.table[k].sleepTicks == 0 && r.table[k].clearChildTid == ctid
            && r.table[k].exitCode == 0
  {
    assert FirstInactive(s.table, 1) == k;
  }

  /** Without shared memory it is a fork. */
  lemma CloneForks(s: Sys, ctid: nat, stackBase: nat)
    requires Shaped(s)
    ensures Clone(s, false, ctid, stackBase) == Fork(s, stackBase)
  {
  }

  // Later on

  /** Slot `k` is active after each of the events. */
  ghost predicate Lives(s: Sys, events: seq<Event>, k: nat)
    requires Shaped(s) && k < MAX_PROCESSES
  {
    forall i: nat :: i <= |events| ==> Run(s, events[..i]).table[k].active
  }

  /** No event changes the records of a slot that is in use. */
  lemma RecordsStay(s: Sys, e: Event, k: nat)
    requires Shaped(s) && k < MAX_PROCESSES && s.table[k].active
    ensures SameSpace(s.table[k], Apply(s, e).table[k])
  {
    hide Tick, Exit, Kill, Wait, FutexWake;
    if !e.ForkEvent? && !e.CloneEvent? { ApplyRecords(s, e, k); }
  }

  lemma {:induction false} RecordsKept(s: Sys, events: seq<Event>, k: nat)
    requires Shaped(s) && k < MAX_PROCESSES && Lives(s, events, k)
    ensures SameSpace(s.table[k], Run(s, events).table[k])
    decreases |events|
  {
    hide Apply;
    if events != [] {
      var n := |events| - 1;
      forall i: nat | i <= n ensures Run(s, events[..n][..i]).table[k].active {
        assert events[..n][..i] == events[..i];
      }
      RecordsKept(s, events[..n], k);
      assert Run(s, events[..n]).table[k].active;
      RecordsStay(Run(s, events[..n]), events[n], k);
    }
  }

  lemma TickRecordsKept(s: Sys, k: nat)
    requires Shaped(s) && k < MAX_PROCESSES
    ensures SameSpace(s.table[k], Tick(s).table[k])
  {
    hide Tick;
    TickTouches(s, k);
  }

  /** The frames that `pages` gives the recorded segments of `p` are those that `pages'` gives them. */
  ghost predicate SameFrames(p: Process, pages: Pages, pages': Pages) {
    forall i :: 0 <= i < |p.segments| ==>
                  SameRun(pages, pages', p.segments[i].virtAddr / 4096, p.segments[i].numPages)
  }

  predicate SameRun(pages: Pages, pages': Pages, page: nat, n: nat) {
    forall v: nat :: page <= v < page + n ==> v in pages && v in pages' && pages[v] == pages'[v]
  }

  /** Whoever runs with the same segments recorded finds them at the same frames. */
  lemma AgreeingFrames(p: Process, q: Process, pages: Pages, pages': Pages)
    requires Agrees(pages, p) && Agrees(pages', q) && q.segments == p.segments
    ensures SameFrames(p, pages, pages')
  {
    forall i | 0 <= i < |p.segments|
      ensures SameRun(pages, pages', p.segments[i].virtAddr / 4096, p.segments[i].numPages)
    {
      assert RunAgrees(pages, p.segments[i].virtAddr / 4096, p.segments[i].physAddr, p.segments[i].numPages);
      assert RunAgrees(pages', q.segments[i].virtAddr / 4096, q.segments[i].physAddr, q.segments[i].numPages);
    }
  }

  /** In a run from `r`, with the child in slot `k`, the tick that selects it gives it what it records. */
  lemma ChildAgrees(r: Sys, events: seq<Event>, k: nat)
    requires Inv(r) && AllowedRun(r, events) && k < MAX_PROCESSES && Lives(r, events, k)
    requires Tick(Run(r, events)).current == k
    ensures Agrees(Tick(Run(r, events)).pages, r.table[k])
  {
    hide Run, AllowedRun, Tick, Lives, Agrees;
    RunKeepsInv(r, events);
    TickKeepsInv(Run(r, events));
    RecordsKept(r, events, k);
    TickRecordsKept(Run(r, events), k);
    SameAgrees(Tick(Run(r, events)).pages, Tick(Run(r, events)).table[k], r.table[k]);
  }

  lemma SameAgrees(pages: Pages, p: Process, q: Process)
    requires SameSpace(p, q) && Agrees(pages, p)
    ensures Agrees(pages, q)
  {
  }

  /** What a creation wrote down for the new slot. */
  lemma ForkRecords(s: Sys, stackBase: nat, k: nat)
    requires Inv(s) && Born(s, Fork(s, stackBase), k)
    ensures Fork(s, stackBase).table[k].segments == s.table[s.current].segments
    ensures Fork(s, stackBase).table[k].stackBase == stackBase && KeepsOwnStack(s, stackBase)
  {
  }

  lemma CloneRecords(s: Sys, ctid: nat, stackBase: nat, k: nat)
    requires Inv(s) && Born(s, Clone(s, true, ctid, stackBase), k)
    ensures SameSpace(s.table[s.current], Clone(s, true, ctid, stackBase).table[k])
  {
  }

  /**
   A forked child runs its caller's program: after any events that leave it alive, the tick that selects it gives
   every page of every segment the caller had the frame the caller saw there, and the stack it was given.
   */
  lemma ForkedChildRuns(s: Sys, stackBase: nat, k: nat, events: seq<Event>)
    requires Inv(s) && Born(s, Fork(s, stackBase), k) && AllowedRun(Fork(s, stackBase), events)
    requires Lives(Fork(s, stackBase), events, k) && Tick(Run(Fork(s, stackBase), events)).current == k
    ensures var pages := Tick(Run(Fork(s, stackBase), events)).pages;
            && SameFrames(s.table[s.current], s.pages, pages)
            && (stackBase != 0 ==> RunAgrees(pages, STACK_PAGE, stackBase, USER_STACK_PAGES))
  {
    hide Run, AllowedRun, Tick, Lives, RunAgrees, SameFrames, Fork, KeepsOwnStack;
    ForkRecords(s, stackBase, k);
    ForkKeepsInv(s, stackBase);
    ChildAgrees(Fork(s, stackBase), events, k);
    AgreeingFrames(s.table[s.current], Fork(s, stackBase).table[k], s.pages,
                   Tick(Run(Fork(s, stackBase), events)).pages);
  }

  /** So does a thread, on its caller's stack. */
  lemma ClonedThreadRuns(s: Sys, ctid: nat, stackBase: nat, k: nat, events: seq<Event>)
    requires Inv(s) && Born(s, Clone(s, true, ctid, stackBase), k)
    requires AllowedRun(Clone(s, true, ctid, stackBase), events) && Lives(Clone(s, true, ctid, stackBase), events, k)
    requires Tick(Run(Clone(s, true, ctid, stackBase), events)).current == k
    ensures var p, pages := s.table[s.current], Tick(Run(Clone(s, true, ctid, stackBase), events)).pages;
            && SameFrames(p, s.pages, pages)
            && (p.stackBase != 0 ==> SameRun(s.pages, pages, STACK_PAGE, USER_STACK_PAGES))
  {
    hide Run, AllowedRun, Tick, Lives, SameFrames, Clone, SameRun;
    var r := Clone(s, true, ctid, stackBase);
    CloneRecords(s, ctid, stackBase, k);
    CloneKeepsInv(s, true, ctid, stackBase);
    ChildAgrees(r, events, k);
    AgreeingFrames(s.table[s.current], r.table[k], s.pages, Tick(Run(r, events)).pages);
    if s.table[s.current].stackBase != 0 {
      SameRuns(s.pages, Tick(Run(r, events)).pages, STACK_PAGE, s.table[s.current].stackBase, USER_STACK_PAGES);
    }
  }

  lemma SameRuns(pages: Pages, pages': Pages, page: nat, phys: nat, n: nat)
    requires RunAgrees(pages, page, phys, n) && RunAgrees(pages', page, phys, n)
    ensures SameRun(pages, pages', page, n)
  {
  }

  /** On the page tables: where two page maps give a run the same frames, so do the walks. */
  lemma SameWalksOfRun(pages: Pages, m: seq<Byte>, pages': Pages, m': seq<Byte>, root: nat, page: nat, n: nat, v: nat)
    requires IsPageMap(pages, m, root) && IsPageMap(pages', m', root) && SameRun(pages, pages', page, n)
    requires page <= v < page + n
    ensures Translate(m, root, v).Some? && Translate(m', root, v).Some?
    ensures Translate(m', root, v).value.phys == Translate(m, root, v).value.phys
  {
    hide Translate;
    assert v in pages && v in pages' && v < VIRTUAL_PAGES;
  }
}
