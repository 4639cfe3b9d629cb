/**
 The remapping block of `scheduler_tick` (kernel/process/process.c) on the real
 page tables of kernel/mm/memory.c: the map from page to frame that the process
 table works with is what the processor's walk gives.
 */
module AddressSwitch {
  import opened Arith
  import opened Bytes
  import opened ElfLoader
  import opened Frames
  import opened PageTree
  import opened Paging
  import opened PoolView
  import opened Processes

  /** USER_STACK_TOP - USER_STACK_PAGES * PAGE_SIZE */
  const STACK_BOTTOM: nat := 0x7FFF_EFFF_0000

  /** `pages` holds exactly the pages that translate, each with the address of its frame. */
  ghost predicate IsPageMap(pages: Pages, m: seq<Byte>, root: nat) {
    && (forall v :: v in pages ==> v < VIRTUAL_PAGES)
    && forall v: nat :: v < VIRTUAL_PAGES ==>
         && (v in pages <==> Translate(m, root, v).Some?)
         && (v in pages ==> pages[v] == Translate(m, root, v).value.phys)
  }

  /** A run that stays inside the 48-bit space, on whole frames. */
  predicate RunFits(virt: nat, phys: nat, n: nat) {
    virt / 4096 + n <= VIRTUAL_PAGES && phys % 4096 == 0 && phys + n * 4096 <= ADDRESSES
  }

  lemma RunPageIs(virt: nat, i: nat)
    requires virt / 4096 + i < VIRTUAL_PAGES
    ensures RunPage(virt, i) == virt / 4096 + i
  {
    assert (virt + i * 4096) / 4096 == virt / 4096 + i by {
      Parts(virt, 4096);
      DivModOf(virt / 4096 + i, 4096, virt % 4096);
    }
  }

  lemma RunFrameIs(phys: nat, i: nat)
    requires phys % 4096 == 0
    ensures RunFrame(phys, i) == phys + i * 4096
  {
    Parts(phys, 4096);
    DivModOf(phys / 4096 + i, 4096, 0);
  }

  /** A stretch of pages that `map_user_pages` is asked to map. */
  datatype Stretch = Stretch(virt: nat, phys: nat, n: nat)

  /** It stays in range, and those of its pages that are the pool's have their own frames. */
  ghost predicate Fits(st: Stretch) {
    && RunFits(st.virt, st.phys, st.n) && st.virt + st.n * 4096 <= ADDRESSES
    && RunKeepsPool(st.virt, st.phys, st.n)
  }

  /** The pages of the stretch translate to its frames, and no other page's translation changed. */
  ghost predicate MapsStretch(m: seq<Byte>, m': seq<Byte>, root: nat, st: Stretch) {
    && MapsRun(m', root, st.virt, st.phys, st.n)
    && forall p: nat :: p < VIRTUAL_PAGES && p !in RunPages(st.virt, st.n) ==>
                          Translate(m', root, p) == Translate(m, root, p)
  }

  /** The stretches were mapped one after the other. */
  ghost predicate MapsAll(m: seq<Byte>, m': seq<Byte>, root: nat, sts: seq<Stretch>)
    decreases |sts|
  {
    if sts == [] then SameWalks(m, m', root)
    else
      var n := |sts| - 1;
      exists mid :: MapsAll(m, mid, root, sts[..n]) && MapsStretch(mid, m', root, sts[n])
  }

  function MapStretches(pages: Pages, sts: seq<Stretch>): Pages {
    if sts == [] then pages
    else
      var last := sts[|sts| - 1];
      MapRun(MapStretches(pages, sts[..|sts| - 1]), last.virt / 4096, last.phys, last.n)
  }

  /** `map_user_pages` on the page tables is the update of the page map. */
  lemma MapRunIs(pages: Pages, m: seq<Byte>, m': seq<Byte>, root: nat, st: Stretch)
    requires IsPageMap(pages, m, root) && Fits(st) && MapsStretch(m, m', root, st)
    ensures IsPageMap(MapRun(pages, st.virt / 4096, st.phys, st.n), m', root)
  {
    hide Translate, RunPage, RunFrame;
    var page, n, pages' := st.virt / 4096, st.n, MapRun(pages, st.virt / 4096, st.phys, st.n);
    forall v: nat | v < VIRTUAL_PAGES
      ensures v in pages' <==> Translate(m', root, v).Some?
      ensures v in pages' ==> pages'[v] == Translate(m', root, v).value.phys
    {
      if page <= v < page + n {
        RunPageIs(st.virt, v - page);
        RunFrameIs(st.phys, v - page);
        assert Translate(m', root, RunPage(st.virt, v - page)).Some?;
      } else {
        forall i: nat | i < n ensures RunPage(st.virt, i) != v { RunPageIs(st.virt, i); }
        assert v !in RunPages(st.virt, n);
      }
    }
  }

  lemma {:induction false} MapsAllIs(pages: Pages, m: seq<Byte>, m': seq<Byte>, root: nat, sts: seq<Stretch>)
    requires IsPageMap(pages, m, root) && MapsAll(m, m', root, sts) && forall i :: 0 <= i < |sts| ==> Fits(sts[i])
    ensures IsPageMap(MapStretches(pages, sts), m', root)
    decreases |sts|
  {
    hide Translate, MapsStretch, MapRun, Fits;
    if sts == [] {
      SamePageMap(pages, m, m', root);
    } else {
      var n := |sts| - 1;
      var mid :| MapsAll(m, mid, root, sts[..n]) && MapsStretch(mid, m', root, sts[n]);
      MapsAllIs(pages, m, mid, root, sts[..n]);
      MapRunIs(MapStretches(pages, sts[..n]), mid, m', root, sts[n]);
    }
  }

  lemma SamePageMap(pages: Pages, m: seq<Byte>, m': seq<Byte>, root: nat)
    requires IsPageMap(pages, m, root) && SameWalks(m, m', root)
    ensures IsPageMap(pages, m', root)
  {
    hide Translate;
  }

  lemma MapsOneMore(m: seq<Byte>, mid: seq<Byte>, m': seq<Byte>, root: nat, sts: seq<Stretch>, st: Stretch)
    requires MapsAll(m, mid, root, sts) && MapsStretch(mid, m', root, st)
    ensures MapsAll(m, m', root, sts + [st])
  {
    assert (sts + [st])[..|sts|] == sts;
  }

  // The remapping block

  /** What the block maps: every recorded segment, then the stack if there is one. */
  function SegmentStretches(segments: seq<Segment>): (sts: seq<Stretch>)
    ensures |sts| == |segments|
    ensures forall i :: 0 <= i < |segments| ==>
                          sts[i] == Stretch(segments[i].virtAddr, segments[i].physAddr, segments[i].numPages)
  {
    seq(|segments|, i requires 0 <= i < |segments| =>
      Stretch(segments[i].virtAddr, segments[i].physAddr, segments[i].numPages))
  }

  function StackStretch(p: Process): Stretch { Stretch(STACK_BOTTOM, p.stackBase, USER_STACK_PAGES) }

  function Stretches(p: Process): seq<Stretch> {
    SegmentStretches(p.segments) + if p.stackBase != 0 then [StackStretch(p)] else []
  }

  lemma {:induction false} SegmentsMapped(pages: Pages, segments: seq<Segment>)
    ensures MapStretches(pages, SegmentStretches(segments)) == MapSegments(pages, segments)
  {
    if segments != [] {
      var n := |segments| - 1;
      assert SegmentStretches(segments)[..n] == SegmentStretches(segments[..n]);
      SegmentsMapped(pages, segments[..n]);
    }
  }

  lemma RemapIs(pages: Pages, p: Process)
    ensures MapStretches(pages, Stretches(p)) == Remap(pages, p)
  {
    hide MapStretches, MapSegments, MapRun, SegmentStretches;
    SegmentsMapped(pages, p.segments);
    var sts := SegmentStretches(p.segments);
    if p.stackBase != 0 {
      OneMoreMapped(pages, sts, StackStretch(p));
    } else {
      assert sts + [] == sts;
    }
  }

  lemma OneMoreMapped(pages: Pages, sts: seq<Stretch>, st: Stretch)
    ensures MapStretches(pages, sts + [st]) == MapRun(MapStretches(pages, sts), st.virt / 4096, st.phys, st.n)
  {
    assert (sts + [st])[..|sts|] == sts;
  }

  /** What the records of a process must satisfy to be mapped. */
  ghost predicate Mappable(p: Process) {
    && (forall i :: 0 <= i < |p.segments| ==>
                      Fits(Stretch(p.segments[i].virtAddr, p.segments[i].physAddr, p.segments[i].numPages)))
    && Fits(StackStretch(p))
  }

  lemma StackClearsPool(phys: nat, n: nat)
    requires n <= USER_STACK_PAGES
    ensures RunKeepsPool(STACK_BOTTOM, phys, n)
  {
    forall i: nat | i < n ensures KeepsPool(RunPage(STACK_BOTTOM, i), RunFrame(phys, i)) { RunPageIs(STACK_BOTTOM, i); }
  }

  /**
   The remapping block on the real page tables. When no frame for a table is missing, every stretch is mapped,
   and the pool stays in the kernel's view.
   */
  method RemapSpace(space: AddressSpace, p: Process) returns (ok: bool)
    requires space.Valid() && space.Seen() && Mappable(p)
    modifies space`tables, space.frames.bitmap, space.frames.pool
    ensures space.Valid() && space.Seen()
    ensures ok ==> MapsAll(old(space.frames.pool[..]), space.frames.pool[..], space.root, Stretches(p))
    ensures !ok ==> FreeFrames(space.frames.bitmap[..]) == 0
  {
    hide MapsAll, MapsStretch, FreeFrames, Fits, PoolSeen, RunKeepsPool, Tree, AllUsed;
    ghost var m := space.frames.pool[..];
    ghost var sts := SegmentStretches(p.segments);
    MapsNothing(m, space.root);
    for s := 0 to |p.segments|
      invariant space.Valid() && space.Seen()
      invariant MapsAll(m, space.frames.pool[..], space.root, sts[..s])
    {
      ghost var mid := space.frames.pool[..];
      var seg := p.segments[s];
      ok := MapOne(space, Stretch(seg.virtAddr, seg.physAddr, seg.numPages));
      if !ok { return; }
      MapsOneMore(m, mid, space.frames.pool[..], space.root, sts[..s], sts[s]);
      assert sts[..s] + [sts[s]] == sts[..s + 1];
    }
    assert sts[..|p.segments|] == sts;
    ok := true;
    if p.stackBase != 0 {
      ghost var mid := space.frames.pool[..];
      ok := MapOne(space, StackStretch(p));
      if ok { MapsOneMore(m, mid, space.frames.pool[..], space.root, sts, StackStretch(p)); }
    } else {
      assert sts + [] == sts;
    }
  }

  lemma MapsNothing(m: seq<Byte>, root: nat)
    ensures MapsAll(m, m, root, [])
  {
  }

  method MapOne(space: AddressSpace, st: Stretch) returns (ok: bool)
    requires space.Valid() && space.Seen() && Fits(st)
    modifies space`tables, space.frames.bitmap, space.frames.pool
    ensures space.Valid() && space.Seen()
    ensures ok ==> MapsStretch(old(space.frames.pool[..]), space.frames.pool[..], space.root, st)
    ensures !ok ==> FreeFrames(space.frames.bitmap[..]) == 0
  {
    hide FreeFrames, PoolSeen, MapsRun, KeepsPool, Tree, AllUsed;
    ok := space.MapUserPages(st.virt, st.phys, st.n);
  }

  // Whole runs

  /** What an event has mapped into the tables. */
  function MapsOf(s: Sys, e: Event): seq<Stretch>
    requires Shaped(s)
  {
    match e
    case TickEvent =>
      var table := Preempted(s.table, s.current);
      var next := Select(table, s.current);
      if next != s.current && (!table[next].isThread || table[next].tgid != table[s.current].tgid)
      then Stretches(table[next]) else []
    case MapEvent(page, frame) => [Stretch(page * 4096, frame, 1)]
    case _ => []
  }

  /** What an event does to the translations. */
  ghost predicate RealStep(m: seq<Byte>, m': seq<Byte>, root: nat, s: Sys, e: Event)
    requires Shaped(s)
  {
    if e.UnmapEvent? then Dropped(m, m', root, e.page) else MapsAll(m, m', root, MapsOf(s, e))
  }

  ghost predicate AllMappable(s: Sys)
    requires Shaped(s)
  {
    forall i: nat :: i < MAX_PROCESSES ==> Mappable(s.table[i])
  }

  /** Addresses in the event are frames and pages, and leave the pool alone. */
  ghost predicate EventFits(e: Event) {
    match e
    case ForkEvent(stackBase) => Fits(Stretch(STACK_BOTTOM, stackBase, USER_STACK_PAGES))
    case CloneEvent(_, _, stackBase) => Fits(Stretch(STACK_BOTTOM, stackBase, USER_STACK_PAGES))
    case MapEvent(page, frame) => Fits(Stretch(page * 4096, frame, 1))
    case UnmapEvent(page) => page < VIRTUAL_PAGES && !PoolPage(page)
    case _ => true
  }

  lemma SameRecords(p: Process, q: Process)
    requires SameSpace(p, q)
    ensures Mappable(p) <==> Mappable(q)
  {
  }

  /** Every event but a creation keeps each slot's records. */
  lemma ApplyRecords(s: Sys, e: Event, i: nat)
    requires Shaped(s) && i < MAX_PROCESSES && !e.ForkEvent? && !e.CloneEvent?
    ensures SameSpace(s.table[i], Apply(s, e).table[i])
  {
    hide Tick, Exit, FutexWake;
    match e
    case TickEvent => TickTouches(s, i);
    case ExitEvent(code) => ExitRecords(s, code, i);
    case FutexWakeEvent(addr, count) => FutexWakeIdentity(s.table, addr, count);
    case _ =>
  }

  lemma ExitRecords(s: Sys, code: int, i: nat)
    requires Shaped(s) && i < MAX_PROCESSES
    ensures SameSpace(s.table[i], Exit(s, code).table[i])
  {
    hide FutexWake;
    FutexWakeIdentity(s.table, s.table[s.current].clearChildTid, 1);
  }

  lemma ApplyMappable(s: Sys, e: Event)
    requires Shaped(s) && AllMappable(s) && EventFits(e)
    ensures AllMappable(Apply(s, e))
  {
    hide Mappable, Tick, Exit, Kill, Wait, FutexWake;
    forall i: nat | i < MAX_PROCESSES ensures Mappable(Apply(s, e).table[i]) {
      assert Mappable(s.table[i]);
      if e.ForkEvent? || e.CloneEvent? {
        SpawnMappable(s, e, i);
      } else {
        ApplyRecords(s, e, i);
        SameRecords(s.table[i], Apply(s, e).table[i]);
      }
    }
  }

  lemma SpawnMappable(s: Sys, e: Event, i: nat)
    requires Shaped(s) && AllMappable(s) && EventFits(e) && i < MAX_PROCESSES && (e.ForkEvent? || e.CloneEvent?)
    ensures Mappable(Apply(s, e).table[i])
  {
    hide FirstInactive, RunKeepsPool;
    StackClearsPool(0, USER_STACK_PAGES);
    assert Mappable(s.table[i]) && Mappable(s.table[s.current]);
  }

  /** The page map after an event is the old one with those stretches. */
  lemma StepPages(s: Sys, e: Event)
    requires Shaped(s) && !e.UnmapEvent?
    ensures Apply(s, e).pages == MapStretches(s.pages, MapsOf(s, e))
  {
    hide Remap, Stretches, Select, Preempted, FutexWake, EndChildren, WakeParent, FindPid, FirstInactive, FirstReapable;
    match e
    case TickEvent => RemapIs(s.pages, Preempted(s.table, s.current)[Select(Preempted(s.table, s.current), s.current)]);
    case MapEvent(page, frame) =>
      var st := Stretch(page * 4096, frame, 1);
      assert [st][..0] == [] && st.virt / 4096 == page;
      assert MapRun(s.pages, page, frame, 1) == s.pages[page := frame];
    case _ =>
  }

  lemma StretchesFit(s: Sys, e: Event)
    requires Shaped(s) && AllMappable(s) && EventFits(e)
    ensures forall i :: 0 <= i < |MapsOf(s, e)| ==> Fits(MapsOf(s, e)[i])
  {
    hide Fits, Select;
    if e.TickEvent? {
      var table := Preempted(s.table, s.current);
      var next := Select(table, s.current);
      assert SameSpace(s.table[next], table[next]) && Mappable(s.table[next]);
      SameRecords(s.table[next], table[next]);
    }
  }

  lemma DroppedIs(pages: Pages, m: seq<Byte>, m': seq<Byte>, root: nat, page: nat)
    requires IsPageMap(pages, m, root) && Dropped(m, m', root, page) && page < VIRTUAL_PAGES
    ensures IsPageMap(pages - {page}, m', root)
  {
    hide Translate;
  }

  lemma {:induction false} MapsAllSeen(m: seq<Byte>, m': seq<Byte>, root: nat, sts: seq<Stretch>)
    requires PoolSeen(m, root) && MapsAll(m, m', root, sts) && forall i :: 0 <= i < |sts| ==> Fits(sts[i])
    ensures PoolSeen(m', root)
    decreases |sts|
  {
    hide PoolSeen, MapsStretch, Fits;
    if sts == [] {
      SameTranslationsSeen(m, m', root);
    } else {
      var n := |sts| - 1;
      var mid :| MapsAll(m, mid, root, sts[..n]) && MapsStretch(mid, m', root, sts[n]);
      MapsAllSeen(m, mid, root, sts[..n]);
      StretchSeen(mid, m', root, sts[n]);
    }
  }

  lemma StretchSeen(m: seq<Byte>, m': seq<Byte>, root: nat, st: Stretch)
    requires PoolSeen(m, root) && Fits(st) && MapsStretch(m, m', root, st)
    ensures PoolSeen(m', root)
  {
    hide Translate, RunPage, RunFrame, RunFits;
    forall vp: nat | PoolPage(vp) ensures SelfMapped(m', root, vp) {
      assert SelfMapped(m, root, vp);
      if vp in RunPages(st.virt, st.n) {
        var i: nat :| i < st.n && RunPage(st.virt, i) == vp;
        assert KeepsPool(RunPage(st.virt, i), RunFrame(st.phys, i));
      }
    }
  }

  lemma StepFollows(s: Sys, e: Event, m: seq<Byte>, m': seq<Byte>, root: nat)
    requires Shaped(s) && AllMappable(s) && EventFits(e)
    requires IsPageMap(s.pages, m, root) && PoolSeen(m, root) && RealStep(m, m', root, s, e)
    ensures IsPageMap(Apply(s, e).pages, m', root) && PoolSeen(m', root)
  {
    hide IsPageMap, PoolSeen, MapsAll, Translate, MapsOf, AllMappable, Fits, MapStretches, Tick, Exit, Kill, Wait, Fork,
         Clone;
    if e.UnmapEvent? {
      DroppedIs(s.pages, m, m', root, e.page);
      OnePageSeen(m, m', root, e.page);
    } else {
      StretchesFit(s, e);
      StepPages(s, e);
      MapsAllIs(s.pages, m, m', root, MapsOf(s, e));
      MapsAllSeen(m, m', root, MapsOf(s, e));
    }
  }

  /** The memories of a run, one before each event and one at the end, each following from the one before. */
  ghost predicate Follows(s: Sys, events: seq<Event>, ms: seq<seq<Byte>>, root: nat)
    requires Shaped(s)
  {
    && |ms| == |events| + 1 && IsPageMap(s.pages, ms[0], root) && PoolSeen(ms[0], root) && AllMappable(s)
    && (forall i :: 0 <= i < |events| ==> EventFits(events[i]))
    && forall i :: 0 <= i < |events| ==> RealStep(ms[i], ms[i + 1], root, Run(s, events[..i]), events[i])
  }

  lemma {:induction false} RunFollows(s: Sys, events: seq<Event>, ms: seq<seq<Byte>>, root: nat)
    requires Shaped(s) && Follows(s, events, ms, root)
    ensures IsPageMap(Run(s, events).pages, ms[|events|], root) && AllMappable(Run(s, events))
    ensures PoolSeen(ms[|events|], root)
    decreases |events|
  {
    hide Apply, IsPageMap, PoolSeen, RealStep, AllMappable, EventFits;
    if events != [] {
      var n := |events| - 1;
      forall i | 0 <= i < n ensures RealStep(ms[i], ms[i + 1], root, Run(s, events[..n][..i]), events[..n][i]) {
        assert events[..n][..i] == events[..i];
      }
      RunFollows(s, events[..n], ms[..n + 1], root);
      StepFollows(Run(s, events[..n]), events[n], ms[n], ms[n + 1], root);
      ApplyMappable(Run(s, events[..n]), events[n]);
    }
  }

  /** Page `v` of the space translates to the frame a run from `page` gives it. */
  ghost predicate SeesRun(m: seq<Byte>, root: nat, page: nat, phys: nat, n: nat) {
    forall v: nat :: page <= v < page + n ==>
                       Translate(m, root, v).Some? && Translate(m, root, v).value.phys == FrameFor(page, phys, v)
  }

  lemma RunSeen(pages: Pages, m: seq<Byte>, root: nat, page: nat, phys: nat, n: nat)
    requires IsPageMap(pages, m, root) && RunAgrees(pages, page, phys, n)
    ensures SeesRun(m, root, page, phys, n)
  {
    hide Translate, FrameFor;
    forall v: nat | page <= v < page + n
      ensures Translate(m, root, v).Some? && Translate(m, root, v).value.phys == FrameFor(page, phys, v)
    {
      assert v in pages && v < VIRTUAL_PAGES;
    }
  }

  /** Every segment and the stack of the process are at its own frames in the page tables. */
  ghost predicate SeesOwn(m: seq<Byte>, root: nat, p: Process) {
    && (forall i :: 0 <= i < |p.segments| ==>
                      SeesRun(m, root, p.segments[i].virtAddr / 4096, p.segments[i].physAddr, p.segments[i].numPages))
    && (p.stackBase != 0 ==> SeesRun(m, root, STACK_PAGE, p.stackBase, USER_STACK_PAGES))
  }

  lemma AgreesSeen(pages: Pages, p: Process, m: seq<Byte>, root: nat)
    requires Agrees(pages, p) && IsPageMap(pages, m, root)
    ensures SeesOwn(m, root, p)
  {
    hide IsPageMap, RunAgrees, SeesRun;
    if p.stackBase != 0 { RunSeen(pages, m, root, STACK_PAGE, p.stackBase, USER_STACK_PAGES); }
    forall i | 0 <= i < |p.segments|
      ensures SeesRun(m, root, p.segments[i].virtAddr / 4096, p.segments[i].physAddr, p.segments[i].numPages)
    {
      RunSeen(pages, m, root, p.segments[i].virtAddr / 4096, p.segments[i].physAddr, p.segments[i].numPages);
    }
  }

  /** After the remapping block the process finds its own frames, whatever was mapped before. */
  lemma RemappedSees(pages: Pages, p: Process, m: seq<Byte>, m': seq<Byte>, root: nat)
    requires PageDisjoint(p.segments) && Mappable(p) && IsPageMap(pages, m, root) && MapsAll(m, m', root, Stretches(p))
    ensures SeesOwn(m', root, p)
  {
    hide IsPageMap, MapsAll, Fits, Remap, MapStretches, Agrees, PageDisjoint, SeesOwn;
    MapsAllIs(pages, m, m', root, Stretches(p));
    RemapIs(pages, p);
    RemapAgrees(pages, p);
    AgreesSeen(Remap(pages, p), p, m', root);
  }

  /** In every allowed run the page tables give the current process its own frames, and the kernel its tables. */
  lemma AlwaysSeesOwn(s: Sys, events: seq<Event>, ms: seq<seq<Byte>>, root: nat)
    requires IsBoot(s) && AllowedRun(s, events) && Follows(s, events, ms, root)
    ensures var t := Run(s, events); SeesOwn(ms[|events|], root, t.table[t.current]) && PoolSeen(ms[|events|], root)
  {
    hide AllowedRun, Run, IsPageMap, PoolSeen, AllMappable, SeesOwn, SlotsOk, GroupsShare, Agrees;
    AlwaysOwnPages(s, events);
    RunFollows(s, events, ms, root);
    var t := Run(s, events);
    AgreesSeen(t.pages, t.table[t.current], ms[|events|], root);
  }
}
