/**
 What becomes of a program whose segments lie over the frame pool
 (kernel/loader/elf.c with kernel/mm/memory.c): when a load leaves the pool in
 the kernel's view, and a program that loads without an error and is not there.
 */
module PoolShadow {
  import opened Arith
  import opened Bytes
  import opened Frames
  import opened Options
  import opened PageTree
  import opened PoolView
  import opened Paging
  import opened ElfLoader

  /** The condition on segments, as the addresses in the program header say it. */
  lemma ClearOfPoolIs(ph: Phdr)
    requires ph.PageBase() + ph.NumPages() * 4096 <= VIRTUAL_PAGES * 4096
    ensures ClearOfPool(ph) <==> ph.NumPages() == 0 || ph.PageBase() + ph.NumPages() * 4096 <= POOL_BASE ||
                                 POOL_BASE + POOL_BYTES <= ph.PageBase()
  {
    var first, n := ph.vaddr / 4096, ph.NumPages();
    forall i: nat | i < n ensures RunPage(ph.PageBase(), i) == first + i { PageParts(first + i, 0); }
    if first < 0xA000 && 0x2000 < first + n && n > 0 {
      var i := if first < 0x2000 then 0x2000 - first else 0;
      assert PoolPage(RunPage(ph.PageBase(), i));
    }
  }

  /** A load leaves the pool in view exactly when each page it maps is outside the pool or got its own frame. */
  lemma LoadKeepsPool(m: seq<Byte>, m': seq<Byte>, root: nat, ph: Phdr, f: nat)
    requires PoolSeen(m, root) && MapsRun(m', root, ph.PageBase(), FrameAddr(f), ph.NumPages())
    requires forall p: nat :: p < VIRTUAL_PAGES && p !in SegmentPages(ph) ==>
                                Translate(m', root, p) == Translate(m, root, p)
    ensures PoolSeen(m', root) <==> RunKeepsPool(ph.PageBase(), FrameAddr(f), ph.NumPages())
  {
    hide Translate, RunPage, RunFrame, FrameAddr;
    var base, n := ph.PageBase(), ph.NumPages();
    forall i: nat | i < n
      ensures PoolPage(RunPage(base, i)) ==>
                (SelfMapped(m', root, RunPage(base, i)) <==> KeepsPool(RunPage(base, i), RunFrame(FrameAddr(f), i))) {}
    if RunKeepsPool(base, FrameAddr(f), n) {
      forall vp: nat | PoolPage(vp) ensures SelfMapped(m', root, vp) {
        assert SelfMapped(m, root, vp);
        if vp in SegmentPages(ph) {
          var i: nat :| i < n && RunPage(base, i) == vp;
          assert KeepsPool(RunPage(base, i), RunFrame(FrameAddr(f), i));
        }
      }
    } else {
      var i: nat :| i < n && !KeepsPool(RunPage(base, i), RunFrame(FrameAddr(f), i));
      assert PoolPage(RunPage(base, i)) && !SelfMapped(m', root, RunPage(base, i));
    }
  }

  // A program over the top-level table

  /** One segment of two zeroed pages at 32 MB. */
  const OVER_ROOT: Phdr := Phdr(PT_LOAD, 0, 0x200_0000, 0, 8192)

  /** It lies in the file and the address space, and only the condition on the pool tells it apart. */
  lemma OverRootAdmitted()
    ensures SegmentOk([], OVER_ROOT) && !ClearOfPool(OVER_ROOT)
  {
    PageParts(0x2000, 0);
    assert PoolPage(RunPage(OVER_ROOT.PageBase(), 0));
  }

  lemma {:induction false} ClearAfterFirst(bm: seq<Byte>, k: nat, n: nat)
    requires FirstUsed(bm, k) && k <= n
    ensures ClearBits(bm, n) == n - k
    decreases n
  {
    if n > k {
      ClearAfterFirst(bm, k, n - 1);
    } else {
      NoneClear(bm, k, n);
    }
  }

  lemma {:induction false} NoneClear(bm: seq<Byte>, k: nat, n: nat)
    requires FirstUsed(bm, k) && n <= k
    ensures ClearBits(bm, n) == 0
    decreases n
  {
    if n > 0 { NoneClear(bm, k, n - 1); }
  }

  /** A mapped page of the first 512 GB has its upper table in entry 0. */
  lemma UpperPresent(m: seq<Byte>, root: nat, vp: nat)
    requires Translate(m, root, vp).Some? && vp < 0x800_0000
    ensures Present(Entry(m, root, 0))
  {
    assert Up(vp, 1) == vp / 512;
    assert Up(vp, 2) == vp / 512 / 512;
    assert Up(vp, 3) == vp / 512 / 512 / 512 == 0;
    assert Index(vp, 4) == 0;
  }

  /** The first page of the segment replaces the page of the top-level table. */
  ghost predicate Shadowed(m: seq<Byte>, root: nat, f: nat) {
    && root == 0 && f < MAX_PAGES && Translate(m, root, 0x2000) == Some(Mapping(FrameAddr(f), 7))
    && forall vp: nat :: PoolPage(vp) && vp != 0x2000 ==> SelfMapped(m, root, vp)
  }

  lemma RoomLeft(bm: seq<Byte>, bm': seq<Byte>, f: nat)
    requires FirstUsed(bm, 6) && FreeRun(bm, f, 2) && Marked(bm, bm', f, 2)
    ensures FreeFrames(bm') == MAX_PAGES - 8 && f > 0 && BitAt(bm', f)
  {
    ClearAfterFirst(bm, 6, MAX_PAGES);
    ClearBitsAfterMarking(bm, bm', f, f + 2, MAX_PAGES);
    assert BitAt(bm, 0) && !BitAt(bm, f);
  }

  lemma FirstPageMapped(m: seq<Byte>, m': seq<Byte>, root: nat, f: nat)
    requires PoolSeen(m, root) && root == 0 && f < MAX_PAGES
    requires Translate(m', root, 0x2000) == Some(Mapping(FrameAddr(f), 7))
    requires forall p: nat :: p < VIRTUAL_PAGES && p != 0x2000 ==> Translate(m', root, p) == Translate(m, root, p)
    ensures Shadowed(m', root, f) && SelfMapped(m', root, 0x2001)
  {
    hide Translate;
    forall vp: nat | PoolPage(vp) && vp != 0x2000 ensures SelfMapped(m', root, vp) { assert SelfMapped(m, root, vp); }
    assert PoolPage(0x2001);
  }

  lemma SegmentZero(m: seq<Byte>, m': seq<Byte>, f: nat)
    requires SegmentOk([], OVER_ROOT) && Holds(m, [], OVER_ROOT, f) && FrameKept(m, m', f) && f < MAX_PAGES
    ensures Entry(m', f, 0) == 0
  {
    forall j | f * 4096 <= j < f * 4096 + 8 && j < |m'| ensures m'[j] == 0 {
      assert m[f * 4096 + OVER_ROOT.vaddr % 4096 + (j - f * 4096)] == ImageByte([], OVER_ROOT, j - f * 4096);
    }
    ZeroWord(m', f * 4096, 8);
  }

  /** `mm_init`, and the frames of the segment. */
  method PlaceOverRoot(frames: FrameAllocator) returns (space: AddressSpace, f: nat)
    requires frames.Valid()
    modifies frames.bitmap, frames.pool
    ensures fresh(space) && space.frames == frames && space.Valid() && space.Seen() && space.root == 0
    ensures 0 < f < MAX_PAGES && f !in space.tables && BitAt(frames.bitmap[..], f)
    ensures FreeFrames(frames.bitmap[..]) == MAX_PAGES - 8
    ensures SegmentOk([], OVER_ROOT) && Holds(frames.pool[..], [], OVER_ROOT, f)
  {
    hide PoolSeen, Translate, FreeFrames, Holds, SegmentOk, Identity;
    space := new AddressSpace(frames);
    OverRootAdmitted();
    ghost var m0, bm0 := frames.pool[..], frames.bitmap[..];
    assert FreeRun(bm0, 6, 2);
    var ok;
    ok, f := PlaceSegment(frames, [], OVER_ROOT);
    Placed(m0, bm0, space.tables, frames.pool[..], frames.bitmap[..], space.root, f, OVER_ROOT);
    SameTranslationsSeen(m0, frames.pool[..], space.root);
    RoomLeft(bm0, frames.bitmap[..], f);
  }

  /** The load up to its first `map_page`: from here on the kernel reads its top-level table in the segment. */
  method MapFirstPage(frames: FrameAllocator) returns (space: AddressSpace, f: nat)
    requires frames.Valid()
    modifies frames.bitmap, frames.pool
    ensures fresh(space) && space.frames == frames && space.Valid() && !space.Seen()
    ensures Shadowed(frames.pool[..], space.root, f) && f !in space.tables && f > 0
    ensures FreeFrames(frames.bitmap[..]) >= 3 && BitAt(frames.bitmap[..], f)
    ensures KernelEntry(frames.pool[..], space.root, space.root, 0) == Some(0)
    ensures Present(Entry(frames.pool[..], space.root, 0)) && Entry(frames.pool[..], f, 0) == 0
    ensures SelfMapped(frames.pool[..], space.root, 0x2001)
  {
    hide PoolSeen, Translate, FreeFrames, Tree, AllUsed, Holds, SegmentOk, Shadowed, Remapped, BitAt, PageOf, Leaf,
         Walk, SelfMapped, KernelEntry, Entry, Present, MissingTables;
    space, f := PlaceOverRoot(frames);
    ghost var m, bm, tables := frames.pool[..], frames.bitmap[..], space.tables;
    FirstPagePlace(f);
    var ok := space.MapPage(0x200_0000, FrameAddr(f), 7);
    FirstPageEffect(m, bm, tables, frames.pool[..], frames.bitmap[..], space.tables, space.root, f);
  }

  lemma FirstPageEffect(m: seq<Byte>, bm: seq<Byte>, tables: Tables, m': seq<Byte>, bm': seq<Byte>, tables': Tables,
                        root: nat, f: nat)
    requires PoolSeen(m, root) && root == 0 && 0 < f < MAX_PAGES && f !in tables && BitAt(bm, f)
    requires SegmentOk([], OVER_ROOT) && Holds(m, [], OVER_ROOT, f)
    requires Remapped(m, bm, tables, m', bm', tables', root, {0x2000})
    requires Translate(m', root, 0x2000) == Some(Mapping(FrameAddr(f), 7))
    ensures Shadowed(m', root, f) && f !in tables' && BitAt(bm', f)
    ensures KernelEntry(m', root, root, 0) == Some(0) && Entry(m', f, 0) == 0
    ensures Present(Entry(m', root, 0)) && SelfMapped(m', root, 0x2001)
  {
    hide PoolSeen, Translate, Holds, Shadowed;
    FirstPageMapped(m, m', root, f);
    assert FrameKept(m, m', f);
    SegmentZero(m, m', f);
    KernelEntryAt(m', root, 0, 0, f);
    UpperPresent(m', root, 0x2001);
  }

  lemma FirstPagePlace(f: nat)
    requires 0 < f < MAX_PAGES
    ensures PageOf(0x200_0000) == 0x2000 && PoolPage(0x2000) && Present(7)
    ensures Leaf(FrameAddr(f), 0) == FrameAddr(f) && FrameAddr(f) / 4096 != 0x2000
  {
    PageParts(0x2000, 0);
    DivModOf(0x2000 + f, 4096, 0);
  }

  /** A store into a frame that holds no live table. */
  method StoreAside(space: AddressSpace, g: nat, k: nat, v: nat)
    requires space.Valid() && g < MAX_PAGES && g !in space.tables && k < 512 && v < ADDRESSES
    modifies space.frames.pool
    ensures space.Valid() && SameWalks(old(space.frames.pool[..]), space.frames.pool[..], space.root)
    ensures OthersKept(old(space.frames.pool[..]), space.frames.pool[..], g)
    ensures Entry(space.frames.pool[..], g, k) == v
  {
    ghost var m := space.frames.pool[..];
    space.SetEntry(g, k, v);
    StoredEntry(m, space.frames.pool[..], g, k, v);
    KeptTables(m, space.frames.pool[..], space.tables, space.root);
  }

  /** `alloc_page` for what the kernel takes to be a missing table. */
  method AllocAside(space: AddressSpace) returns (t: nat)
    requires space.Valid() && FreeFrames(space.frames.bitmap[..]) > 0
    modifies space.frames.bitmap, space.frames.pool
    ensures space.Valid() && SameWalks(old(space.frames.pool[..]), space.frames.pool[..], space.root)
    ensures t < MAX_PAGES && t !in space.tables && !BitAt(old(space.frames.bitmap[..]), t)
    ensures Marked(old(space.frames.bitmap[..]), space.frames.bitmap[..], t, 1)
    ensures OthersKept(old(space.frames.pool[..]), space.frames.pool[..], t)
    ensures forall k: nat :: k < 512 ==> Entry(space.frames.pool[..], t, k) == 0
    ensures FreeFrames(space.frames.bitmap[..]) == FreeFrames(old(space.frames.bitmap[..])) - 1
  {
    ghost var m, bm := space.frames.pool[..], space.frames.bitmap[..];
    var ok;
    ok, t := space.AllocTable();
    assert forall f :: f in space.tables ==> 0 <= f && BitAt(bm, f);
    KeptTables(m, space.frames.pool[..], space.tables, space.root);
  }

  /** Frames in use, but for one, keep their contents. */
  ghost predicate KeptUsed(m: seq<Byte>, m': seq<Byte>, bm: seq<Byte>, g: nat) {
    forall h: nat :: h < MAX_PAGES && BitAt(bm, h) && h != g ==> FrameKept(m, m', h)
  }

  /** A level of `map_page` whose entry reads as zero: a frame is taken, and its address stored in the entry. */
  method HangAside(space: AddressSpace, g: nat, k: nat) returns (t: nat)
    requires space.Valid() && g < MAX_PAGES && g !in space.tables && BitAt(space.frames.bitmap[..], g) && k < 512
    requires FreeFrames(space.frames.bitmap[..]) > 0
    modifies space.frames.bitmap, space.frames.pool
    ensures space.Valid() && SameWalks(old(space.frames.pool[..]), space.frames.pool[..], space.root)
    ensures KeptUsed(old(space.frames.pool[..]), space.frames.pool[..], old(space.frames.bitmap[..]), g)
    ensures t < MAX_PAGES && t !in space.tables && t != g && t != space.root && BitAt(space.frames.bitmap[..], t)
    ensures Entry(space.frames.pool[..], g, k) == FrameAddr(t) + 7 && !BitAt(old(space.frames.bitmap[..]), t)
    ensures forall h: nat :: BitAt(old(space.frames.bitmap[..]), h) ==> BitAt(space.frames.bitmap[..], h)
    ensures FreeFrames(space.frames.bitmap[..]) == FreeFrames(old(space.frames.bitmap[..])) - 1
    ensures forall j: nat :: j < 512 ==> Entry(space.frames.pool[..], t, j) == 0
  {
    hide Translate, FreeFrames;
    ghost var m, bm := space.frames.pool[..], space.frames.bitmap[..];
    assert BitAt(bm, space.root);
    t := AllocAside(space);
    ghost var m1 := space.frames.pool[..];
    StoreAside(space, g, k, FrameAddr(t) + 7);
    forall h: nat | h < MAX_PAGES && BitAt(bm, h) && h != g ensures FrameKept(m, space.frames.pool[..], h) {
      assert FrameKept(m, m1, h) && FrameKept(m1, space.frames.pool[..], h);
    }
    forall j: nat | j < 512 ensures Entry(space.frames.pool[..], t, j) == 0 {
      KeptFrameKeepsEntries(m1, space.frames.pool[..], t, j);
    }
  }

  lemma StillShadowed(m: seq<Byte>, m': seq<Byte>, root: nat, f: nat)
    requires Shadowed(m, root, f) && SameWalks(m, m', root)
    ensures Shadowed(m', root, f)
  {
    hide Translate;
    forall vp: nat | PoolPage(vp) && vp != 0x2000 ensures SelfMapped(m', root, vp) { assert SelfMapped(m, root, vp); }
  }

  lemma AsideIsSelf(m: seq<Byte>, root: nat, f: nat, t: nat, k: nat)
    requires Shadowed(m, root, f) && 0 < t < MAX_PAGES && k < 512
    ensures PhysOf(m, root, FrameAddr(t) + k * 8) == Some(FrameAddr(t) + k * 8)
    ensures KernelEntry(m, root, t, k) == Some(Entry(m, t, k))
  {
    hide Translate;
    assert SelfMapped(m, root, 0x2000 + t);
    KernelEntryAt(m, root, t, k, t);
  }

  /**
   The second `map_page`, for 0x2001000, as the kernel performs it: entry 0 of the top-level table reads as
   zero, so three tables are allocated beside the live ones, and the first store goes into the segment.
   */
  method MapSecondPage(space: AddressSpace, f: nat)
    requires space.Valid() && Shadowed(space.frames.pool[..], space.root, f) && f !in space.tables && f > 0
    requires Entry(space.frames.pool[..], f, 0) == 0 && BitAt(space.frames.bitmap[..], f)
    requires FreeFrames(space.frames.bitmap[..]) >= 3
    modifies space.frames.bitmap, space.frames.pool
    ensures space.Valid() && SameWalks(old(space.frames.pool[..]), space.frames.pool[..], space.root)
    ensures Entry(space.frames.pool[..], f, 0) % 4096 == 7
  {
    hide Translate, FreeFrames, Tree, AllUsed, Shadowed;
    ghost var m0, root := space.frames.pool[..], space.root;
    ShadowedLoad(m0, root, f);
    assert KernelEntry(m0, root, root, 0) == Some(0);
    var t := HangAside(space, f, 0);
    ghost var m1, bm1 := space.frames.pool[..], space.frames.bitmap[..];
    StillShadowed(m0, m1, root, f);
    AsideIsSelf(m1, root, f, t, 0);
    assert KernelEntry(m1, root, t, 0) == Some(0);
    FillAside(space, f, t);
    KeptFrameKeepsEntries(m1, space.frames.pool[..], f, 0);
    EntryLow(t);
  }

  lemma EntryLow(t: nat)
    ensures (FrameAddr(t) + 7) % 4096 == 7
  {
    DivModOf(0x2000 + t, 4096, 7);
  }

  lemma ShadowedLoad(m: seq<Byte>, root: nat, f: nat)
    requires Shadowed(m, root, f)
    ensures root == 0 && f < MAX_PAGES && KernelEntry(m, root, root, 0) == Some(Entry(m, f, 0))
    ensures PhysOf(m, root, FrameAddr(root)) == Some(FrameAddr(f))
  {
    hide Translate;
    KernelEntryAt(m, root, 0, 0, f);
  }

  /** The rest of it: a directory and a page table below the new table, and the leaf in them. */
  method FillAside(space: AddressSpace, f: nat, t: nat)
    requires space.Valid() && f < MAX_PAGES && t < MAX_PAGES && t !in space.tables
    requires BitAt(space.frames.bitmap[..], f) && BitAt(space.frames.bitmap[..], t) && f != t
    requires FreeFrames(space.frames.bitmap[..]) >= 2
    modifies space.frames.bitmap, space.frames.pool
    ensures space.Valid() && SameWalks(old(space.frames.pool[..]), space.frames.pool[..], space.root)
    ensures FrameKept(old(space.frames.pool[..]), space.frames.pool[..], f)
  {
    hide Translate, FreeFrames, Tree, AllUsed, FrameKept;
    ghost var m0, bm0 := space.frames.pool[..], space.frames.bitmap[..];
    var u := HangAside(space, t, 0);
    assert FrameKept(m0, space.frames.pool[..], f);
    ghost var m1 := space.frames.pool[..];
    var w := HangAside(space, u, 16);
    assert FrameKept(m1, space.frames.pool[..], f);
    ghost var m2 := space.frames.pool[..];
    StoreAside(space, w, 1, FrameAddr(f) + 4096 + 7);
    assert FrameKept(m2, space.frames.pool[..], f);
    KeptThrice(m0, m1, m2, space.frames.pool[..], f);
  }

  lemma KeptThrice(m0: seq<Byte>, m1: seq<Byte>, m2: seq<Byte>, m3: seq<Byte>, f: nat)
    requires FrameKept(m0, m1, f) && FrameKept(m1, m2, f) && FrameKept(m2, m3, f)
    ensures FrameKept(m0, m3, f)
  {
  }

  /** The whole load: it ends without an error, and the segment does not read as the file says. */
  method LoadOverRoot(frames: FrameAllocator) returns (space: AddressSpace)
    requires frames.Valid()
    modifies frames.bitmap, frames.pool
    ensures space.frames == frames && space.Valid()
    ensures ReadVirtual(frames.pool[..], space.root, 0x200_0000) == Some(7)
    ensures SelfMapped(frames.pool[..], space.root, 0x2001)
    ensures SegmentOk([], OVER_ROOT) && !Readable(frames.pool[..], space.root, [], OVER_ROOT)
  {
    hide Translate, FreeFrames, Tree;
    var f;
    space, f := MapFirstPage(frames);
    ghost var m := frames.pool[..];
    MapSecondPage(space, f);
    StillShadowed(m, frames.pool[..], space.root, f);
    OverRootAdmitted();
    FirstByte(frames.pool[..], space.root, f);
    assert ImageByte([], OVER_ROOT, 0) == 0;
  }

  lemma FirstByte(m: seq<Byte>, root: nat, f: nat)
    requires Shadowed(m, root, f) && |m| == POOL_BYTES && Entry(m, f, 0) % 4096 == 7
    ensures ReadVirtual(m, root, 0x200_0000) == Some(7)
  {
    hide Translate;
    PageParts(0x2000, 0);
    LowByte(m, f * 4096);
  }

  lemma LowByte(m: seq<Byte>, i: nat)
    requires i + 8 <= |m| && Le(m, i, 8) % 4096 == 7
    ensures m[i] == 7
  {
    assert Le(m, i, 8) == m[i] + 256 * Le(m, i + 1, 7);
  }

  // Unmapping a table

  /** Mapping the top-level table's page to its own frame is harmless; unmapping it then frees the table in use. */
  method UnmapRoot(frames: FrameAllocator) returns (space: AddressSpace)
    requires frames.Valid()
    modifies frames.bitmap, frames.pool
    ensures space.frames == frames && space.root in space.tables && !BitAt(frames.bitmap[..], space.root)
    ensures !space.Valid() && !space.Seen()
  {
    hide PoolSeen, Translate, Walk, FreeFrames, Identity, Remapped, MissingTables;
    space := new AddressSpace(frames);
    FreeAtFirst(frames.bitmap[..]);
    OwnPagePlace();
    var ok := space.MapPage(0x200_0000, 0x200_0000, 7);
    assert space.Valid() && space.Seen();
    space.UnmapPage(0x200_0000);
    assert space.root in space.tables && FrameAddr(space.root) == 0x200_0000;
  }

  lemma FreeAtFirst(bm: seq<Byte>)
    requires FirstUsed(bm, 6)
    ensures FreeFrames(bm) == MAX_PAGES - 6
  {
    ClearAfterFirst(bm, 6, MAX_PAGES);
  }

  lemma OwnPagePlace()
    ensures PageOf(0x200_0000) == 0x2000 && PoolPage(0x2000) && Present(7) && 0x200_0000 / 4096 == 0x2000
    ensures Leaf(0x200_0000, 0) == 0x200_0000 == FrameAddr(0)
  {
    PageParts(0x2000, 0);
  }
}
