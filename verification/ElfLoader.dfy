/**
 `elf_load_binary` of kernel/loader/elf.c: each PT_LOAD segment is given a run
 of frames, filled from the file, zero-extended and mapped.
 */
module ElfLoader {
  import opened Bytes
  import opened Frames
  import opened Options
  import opened PageTree
  import opened Paging
  import opened PoolView

  const PT_LOAD: nat := 1
  const MAX_ELF_SEGMENTS: nat := 8
  const PHDR_SIZE: nat := 56

  /** Field widths of the ELF headers, in bytes. */
  const HALF: nat := 2
  const WORD: nat := 4
  const XWORD: nat := 8

  datatype Phdr = Phdr(ptype: nat, offset: nat, vaddr: nat, filesz: nat, memsz: nat) {
    function PageBase(): nat { vaddr / 4096 * 4096 }
    function NumPages(): nat { (memsz + vaddr % 4096 + 4095) / 4096 }
  }

  function Times(i: nat, size: nat): nat { i * size }

  /** Program header `i`, decoded from the image at `e_phoff + i * e_phentsize`. */
  function PhdrAt(data: seq<Byte>, i: nat): Phdr {
    var p := Le(data, 32, XWORD) + Times(i, Le(data, 54, HALF));
    Phdr(Le(data, p, WORD), Le(data, p + 8, XWORD), Le(data, p + 16, XWORD), Le(data, p + 32, XWORD),
         Le(data, p + 40, XWORD))
  }

  function PhdrCount(data: seq<Byte>): nat { Le(data, 56, HALF) }

  /** The header tests: size, magic, 64-bit class, x86-64 machine. */
  predicate HeaderOk(data: seq<Byte>) {
    |data| >= 64 && Le(data, 0, WORD) == 0x464C457F && data[4] == 2 && Le(data, 18, HALF) == 0x3E
  }

  datatype Segment = Segment(virtAddr: nat, physAddr: nat, numPages: nat)

  datatype ElfInfo = ElfInfo(entryPoint: nat, minVaddr: nat, maxVaddr: nat, segments: seq<Segment>)

  /** What the loader assumes of a loadable segment without testing it. */
  predicate SegmentOk(data: seq<Byte>, ph: Phdr) {
    && ph.offset + ph.filesz <= |data| && ph.filesz <= ph.memsz
    && ph.vaddr + ph.memsz + 4096 <= ADDRESSES && ph.NumPages() <= MAX_PAGES
  }

  ghost function SegmentPages(ph: Phdr): set<nat> {
    RunPages(ph.PageBase(), ph.NumPages())
  }

  /** No page of the segment is one of the pool's: 32 MB up to 160 MB. */
  ghost predicate ClearOfPool(ph: Phdr) {
    forall i: nat :: i < ph.NumPages() ==> !PoolPage(RunPage(ph.PageBase(), i))
  }

  /** The byte a segment puts at offset `k` of its memory image: file contents, then zeros. */
  function ImageByte(data: seq<Byte>, ph: Phdr, k: nat): Byte
    requires SegmentOk(data, ph)
  {
    if k < ph.filesz then data[ph.offset + k] else 0
  }

  /** A virtual byte read through the walk, when it lands in the pool. */
  function ReadVirtual(m: seq<Byte>, root: nat, virt: nat): Option<Byte> {
    match Translate(m, root, PageOf(virt))
    case None => None
    case Some(hit) =>
      var a := hit.phys + virt % 4096 - POOL_BASE;
      if 0 <= a < |m| then Some(m[a]) else None
  }

  /** Every byte of the segment's memory image can be read back at its virtual address. */
  ghost predicate Readable(m: seq<Byte>, root: nat, data: seq<Byte>, ph: Phdr)
    requires SegmentOk(data, ph)
  {
    forall k: nat :: k < ph.memsz ==> ReadVirtual(m, root, ph.vaddr + k) == Some(ImageByte(data, ph, k))
  }

  // Physical side of a loaded segment

  /** Frames `f..f + n` are in use and hold no table. */
  ghost predicate DataFrames(bm: seq<Byte>, tables: Tables, f: nat, n: nat) {
    f + n <= MAX_PAGES && forall g: nat :: f <= g < f + n ==> BitAt(bm, g) && g !in tables
  }

  /** The memory image laid out in physical memory from frame `f`. */
  ghost predicate Holds(m: seq<Byte>, data: seq<Byte>, ph: Phdr, f: nat)
    requires SegmentOk(data, ph)
  {
    && |m| == POOL_BYTES && (f + ph.NumPages()) * 4096 <= POOL_BYTES
    && forall k: nat :: k < ph.memsz ==> m[f * 4096 + ph.vaddr % 4096 + k] == ImageByte(data, ph, k)
  }

  ghost predicate Loaded(m: seq<Byte>, bm: seq<Byte>, tables: Tables, root: nat, data: seq<Byte>, ph: Phdr, f: nat)
    requires SegmentOk(data, ph)
  {
    && DataFrames(bm, tables, f, ph.NumPages())
    && Holds(m, data, ph, f)
    && MapsRun(m, root, ph.PageBase(), FrameAddr(f), ph.NumPages())
  }

  /** Used data frames and the translations outside `pages` survive; new tables come from free frames. */
  ghost predicate Advanced(m: seq<Byte>, bm: seq<Byte>, tables: Tables,
                           m': seq<Byte>, bm': seq<Byte>, tables': Tables, root: nat, pages: set<nat>) {
    && DataKept(m, m', bm, tables)
    && (forall f: nat :: BitAt(bm, f) ==> BitAt(bm', f))
    && (forall f: nat :: f in tables' && f !in tables ==> !BitAt(bm, f))
    && (forall p: nat :: p < VIRTUAL_PAGES && p !in pages ==> Translate(m', root, p) == Translate(m, root, p))
  }

  lemma AdvancedTrans(m0: seq<Byte>, bm0: seq<Byte>, t0: Tables, m1: seq<Byte>, bm1: seq<Byte>, t1: Tables,
                      m2: seq<Byte>, bm2: seq<Byte>, t2: Tables, root: nat, pages: set<nat>)
    requires Advanced(m0, bm0, t0, m1, bm1, t1, root, pages) && Advanced(m1, bm1, t1, m2, bm2, t2, root, pages)
    ensures Advanced(m0, bm0, t0, m2, bm2, t2, root, pages)
  {
    forall f: nat | f < MAX_PAGES && BitAt(bm0, f) && f !in t0 ensures FrameKept(m0, m2, f) {
      assert FrameKept(m0, m1, f) && FrameKept(m1, m2, f);
    }
  }

  /** A loaded segment stays loaded while other pages are mapped and free frames are taken. */
  lemma LoadedPersists(m: seq<Byte>, bm: seq<Byte>, tables: Tables, m': seq<Byte>, bm': seq<Byte>, tables': Tables,
                       root: nat, pages: set<nat>, data: seq<Byte>, ph: Phdr, f: nat)
    requires SegmentOk(data, ph) && Loaded(m, bm, tables, root, data, ph, f)
    requires Advanced(m, bm, tables, m', bm', tables', root, pages) && pages !! SegmentPages(ph)
    ensures Loaded(m', bm', tables', root, data, ph, f)
  {
    forall k: nat | k < ph.memsz ensures m'[f * 4096 + ph.vaddr % 4096 + k] == ImageByte(data, ph, k) {
      var a := f * 4096 + ph.vaddr % 4096 + k;
      InsideRun(ph, f, k);
      assert FrameKept(m, m', a / 4096);
    }
    forall i: nat | i < ph.NumPages()
      ensures Translate(m', root, RunPage(ph.PageBase(), i)) == Some(Mapping(RunFrame(FrameAddr(f), i), 7))
    {
      assert RunPage(ph.PageBase(), i) in SegmentPages(ph);
    }
  }

  /** Byte `k` of the image lies in one of the segment's frames. */
  lemma InsideRun(ph: Phdr, f: nat, k: nat)
    requires k < ph.memsz
    ensures f <= (f * 4096 + ph.vaddr % 4096 + k) / 4096 < f + ph.NumPages()
  {
  }

  lemma PageOfImageByte(ph: Phdr, f: nat, k: nat)
    requires k < ph.memsz
    ensures var i := (ph.vaddr % 4096 + k) / 4096;
            && i < ph.NumPages()
            && PageOf(ph.vaddr + k) == RunPage(ph.PageBase(), i)
            && RunFrame(FrameAddr(f), i) + (ph.vaddr + k) % 4096 == POOL_BASE + f * 4096 + ph.vaddr % 4096 + k
  {
    var i := (ph.vaddr % 4096 + k) / 4096;
    assert (ph.vaddr + k) / 4096 == ph.vaddr / 4096 + i;
    assert (ph.PageBase() + i * 4096) / 4096 == ph.vaddr / 4096 + i;
    assert (ph.vaddr + k) % 4096 == (ph.vaddr % 4096 + k) % 4096;
    assert FrameAddr(f) + i * 4096 == (8192 + f + i) * 4096;
  }

  lemma LoadedIsReadable(m: seq<Byte>, bm: seq<Byte>, tables: Tables, root: nat, data: seq<Byte>, ph: Phdr, f: nat)
    requires SegmentOk(data, ph) && Loaded(m, bm, tables, root, data, ph, f)
    ensures Readable(m, root, data, ph)
  {
    hide Translate, PageOf, RunPage, RunFrame, FrameAddr, ReadVirtual, ImageByte, DataFrames;
    forall k: nat | k < ph.memsz ensures ReadVirtual(m, root, ph.vaddr + k) == Some(ImageByte(data, ph, k)) {
      PageOfImageByte(ph, f, k);
      InsideRun(ph, f, k);
      var i, a := (ph.vaddr % 4096 + k) / 4096, f * 4096 + ph.vaddr % 4096 + k;
      ReadThrough(m, root, ph.vaddr + k, RunPage(ph.PageBase(), i), RunFrame(FrameAddr(f), i), a);
    }
  }

  lemma ReadThrough(m: seq<Byte>, root: nat, virt: nat, page: nat, phys: nat, a: nat)
    requires page == PageOf(virt) && Translate(m, root, page) == Some(Mapping(phys, 7))
    requires phys + virt % 4096 == POOL_BASE + a && a < |m|
    ensures ReadVirtual(m, root, virt) == Some(m[a])
  {
    hide Translate, PageOf;
  }

  ghost predicate KeptOutside(m: seq<Byte>, m': seq<Byte>, f: nat, n: nat) {
    |m'| == |m| && forall g: nat :: g < MAX_PAGES && !(f <= g < f + n) ==> FrameKept(m, m', g)
  }

  /** Allocate the frames of a segment, copy its file bytes and clear the rest of its image. */
  method PlaceSegment(frames: FrameAllocator, data: seq<Byte>, ph: Phdr) returns (ok: bool, f: nat)
    requires frames.Valid() && SegmentOk(data, ph)
    modifies frames.bitmap, frames.pool
    ensures !ok ==> frames.bitmap[..] == old(frames.bitmap[..]) && frames.pool[..] == old(frames.pool[..])
    ensures !ok <==> ph.NumPages() == 0 || forall i: nat :: !FreeRun(old(frames.bitmap[..]), i, ph.NumPages())
    ensures ok ==>
              && FreeRun(old(frames.bitmap[..]), f, ph.NumPages())
              && Marked(old(frames.bitmap[..]), frames.bitmap[..], f, ph.NumPages())
              && Holds(frames.pool[..], data, ph, f)
              && KeptOutside(old(frames.pool[..]), frames.pool[..], f, ph.NumPages())
  {
    var n := ph.NumPages();
    var addr := frames.AllocPages(n);
    if addr == NULL { return false, 0; }
    ok, f := true, (addr - POOL_BASE) / 4096;
    ghost var m0, bm := old(frames.pool[..]), frames.bitmap[..];
    ghost var m1 := frames.pool[..];
    var start := f * 4096 + ph.vaddr % 4096;
    assert start + ph.memsz <= (f + n) * 4096;

    for k := 0 to ph.filesz
      invariant frames.bitmap[..] == bm
      invariant forall a :: 0 <= a < POOL_BYTES ==>
                              frames.pool[a] == if start <= a < start + k then data[ph.offset + (a - start)] else m1[a]
    {
      frames.pool[start + k] := data[ph.offset + k];
    }
    ghost var m2 := frames.pool[..];
    for k := ph.filesz to ph.memsz
      invariant frames.bitmap[..] == bm
      invariant forall a :: 0 <= a < POOL_BYTES ==>
                              frames.pool[a] == if start + ph.filesz <= a < start + k then 0 else m2[a]
    {
      frames.pool[start + k] := 0;
    }
    PlacedSegment(m0, m1, frames.pool[..], data, ph, f);
  }

  lemma PlacedSegment(m0: seq<Byte>, m1: seq<Byte>, m2: seq<Byte>, data: seq<Byte>, ph: Phdr, f: nat)
    requires SegmentOk(data, ph) && f + ph.NumPages() <= MAX_PAGES
    requires |m0| == |m2| == POOL_BYTES && Cleared(m0, m1, f, ph.NumPages())
    requires var start := f * 4096 + ph.vaddr % 4096;
             forall a :: 0 <= a < POOL_BYTES ==>
                           m2[a] == if start <= a < start + ph.filesz then data[ph.offset + (a - start)]
                                    else if start + ph.filesz <= a < start + ph.memsz then 0 else m1[a]
    ensures Holds(m2, data, ph, f) && KeptOutside(m0, m2, f, ph.NumPages())
  {
    var start := f * 4096 + ph.vaddr % 4096;
    assert start + ph.memsz <= (f + ph.NumPages()) * 4096;
    forall g: nat | g < MAX_PAGES && !(f <= g < f + ph.NumPages()) ensures FrameKept(m0, m2, g) {
      forall a | g * 4096 <= a < (g + 1) * 4096 && a < |m0| ensures m2[a] == m0[a] {
        assert !(f * 4096 <= a < (f + ph.NumPages()) * 4096);
      }
    }
  }

  /** One round of the program-header loop for a PT_LOAD entry. */
  method LoadSegment(space: AddressSpace, data: seq<Byte>, ph: Phdr) returns (ok: bool, f: nat)
    requires space.Valid() && space.Seen() && SegmentOk(data, ph) && ClearOfPool(ph)
    modifies space`tables, space.frames.bitmap, space.frames.pool
    ensures space.Valid() && space.Seen()
    ensures ok ==> Loaded(space.frames.pool[..], space.frames.bitmap[..], space.tables, space.root, data, ph, f)
    ensures !ok ==> NoRoom(space.frames.bitmap[..], ph.NumPages())
    ensures Advanced(old(space.frames.pool[..]), old(space.frames.bitmap[..]), old(space.tables),
                     space.frames.pool[..], space.frames.bitmap[..], space.tables, space.root, SegmentPages(ph))
  {
    hide PoolSeen, ClearOfPool, RunKeepsPool;
    ghost var m0, bm0, t0 := space.frames.pool[..], space.frames.bitmap[..], space.tables;
    ok, f := PlaceSegment(space.frames, data, ph);
    if !ok { return; }
    ghost var m1, bm1 := space.frames.pool[..], space.frames.bitmap[..];
    Placed(m0, bm0, t0, m1, bm1, space.root, f, ph);
    SameTranslationsSeen(m0, m1, space.root);
    ClearRunKeepsPool(ph, f);
    ok := space.MapUserPages(ph.PageBase(), FrameAddr(f), ph.NumPages());
    if !ok { FullPoolHasNoRoom(space.frames.bitmap[..], ph.NumPages()); }
    SegmentMapped(m0, bm0, t0, m1, bm1, space.frames.pool[..], space.frames.bitmap[..], space.tables,
                  space.root, data, ph, f);
  }

  lemma ClearRunKeepsPool(ph: Phdr, f: nat)
    requires ClearOfPool(ph)
    ensures RunKeepsPool(ph.PageBase(), FrameAddr(f), ph.NumPages())
    ensures RunKeepsPool(ph.PageBase(), FrameAddr(f), if ph.NumPages() > 0 then ph.NumPages() - 1 else 0)
  {
  }

  /** `alloc_pages(n)` would return NULL. */
  ghost predicate NoRoom(bm: seq<Byte>, n: nat) {
    n == 0 || forall i: nat :: !FreeRun(bm, i, n)
  }

  lemma FullPoolHasNoRoom(bm: seq<Byte>, n: nat)
    requires FreeFrames(bm) == 0
    ensures NoRoom(bm, n)
  {
    ClearBitsPositive(bm, MAX_PAGES);
    forall i: nat | n > 0 ensures !FreeRun(bm, i, n) {
      assert i < MAX_PAGES ==> BitAt(bm, i);
    }
  }

  lemma Placed(m0: seq<Byte>, bm0: seq<Byte>, tables: Tables, m1: seq<Byte>, bm1: seq<Byte>, root: nat,
               f: nat, ph: Phdr)
    requires Tree(m0, tables, root) && AllUsed(bm0, tables)
    requires FreeRun(bm0, f, ph.NumPages()) && Marked(bm0, bm1, f, ph.NumPages())
    requires KeptOutside(m0, m1, f, ph.NumPages())
    ensures Tree(m1, tables, root) && AllUsed(bm1, tables)
    ensures DataFrames(bm1, tables, f, ph.NumPages())
    ensures Advanced(m0, bm0, tables, m1, bm1, tables, root, SegmentPages(ph))
    ensures forall p: nat :: p < VIRTUAL_PAGES ==> Translate(m1, root, p) == Translate(m0, root, p)
  {
    forall g | g in tables ensures 0 <= g && FrameKept(m0, m1, g) {
      assert BitAt(bm0, g);
    }
    KeptTables(m0, m1, tables, root);
  }

  lemma SegmentMapped(m0: seq<Byte>, bm0: seq<Byte>, t0: Tables, m1: seq<Byte>, bm1: seq<Byte>,
                      m2: seq<Byte>, bm2: seq<Byte>, t2: Tables, root: nat, data: seq<Byte>, ph: Phdr, f: nat)
    requires SegmentOk(data, ph) && DataFrames(bm1, t0, f, ph.NumPages()) && Holds(m1, data, ph, f)
    requires Advanced(m0, bm0, t0, m1, bm1, t0, root, SegmentPages(ph))
    requires Remapped(m1, bm1, t0, m2, bm2, t2, root, SegmentPages(ph))
    ensures Advanced(m0, bm0, t0, m2, bm2, t2, root, SegmentPages(ph))
    ensures DataFrames(bm2, t2, f, ph.NumPages()) && Holds(m2, data, ph, f)
  {
    AdvancedTrans(m0, bm0, t0, m1, bm1, t0, m2, bm2, t2, root, SegmentPages(ph));
    forall k: nat | k < ph.memsz ensures m2[f * 4096 + ph.vaddr % 4096 + k] == ImageByte(data, ph, k) {
      InsideRun(ph, f, k);
      assert FrameKept(m1, m2, (f * 4096 + ph.vaddr % 4096 + k) / 4096);
    }
  }

  predicate IsLoad(data: seq<Byte>, i: nat) {
    PhdrAt(data, i).ptype == PT_LOAD
  }

  /** Program header `i` lies in the file. */
  predicate HeaderInside(data: seq<Byte>, i: nat) {
    Le(data, 32, XWORD) + Times(i, Le(data, 54, HALF)) + PHDR_SIZE <= |data|
  }

  /**
   What the loader assumes of a whole image: its headers lie in the file, its segments share no page and none of
   them lies over the pool.
   */
  ghost predicate ImageOk(data: seq<Byte>) {
    && (forall i: nat :: i < PhdrCount(data) ==> HeaderInside(data, i))
    && (forall i: nat :: i < PhdrCount(data) && IsLoad(data, i) ==>
                           SegmentOk(data, PhdrAt(data, i)) && ClearOfPool(PhdrAt(data, i)))
    && (forall i: nat, j: nat :: i < j < PhdrCount(data) && IsLoad(data, i) && IsLoad(data, j) ==>
                                   SegmentPages(PhdrAt(data, i)) !! SegmentPages(PhdrAt(data, j)))
  }

  /** The PT_LOAD headers among the first `n`, in order. */
  function LoadHeaders(data: seq<Byte>, n: nat): (r: seq<nat>)
    ensures forall i :: 0 <= i < |r| ==> r[i] < n && IsLoad(data, r[i])
  {
    if n == 0 then [] else LoadHeaders(data, n - 1) + if IsLoad(data, n - 1) then [n - 1] else []
  }

  /** Header `i`'s segment, if it has one, is loaded at frame `f`. */
  ghost predicate LoadedAt(m: seq<Byte>, bm: seq<Byte>, tables: Tables, root: nat, data: seq<Byte>, i: nat, f: nat) {
    IsLoad(data, i) ==>
      SegmentOk(data, PhdrAt(data, i)) && Loaded(m, bm, tables, root, data, PhdrAt(data, i), f)
  }

  /** The recorded segments are the first eight loaded ones, each with its own frames. */
  ghost predicate Records(data: seq<Byte>, n: nat, placed: seq<nat>, segments: seq<Segment>) {
    var loads := LoadHeaders(data, n);
    && |placed| == n
    && |segments| == (if |loads| < MAX_ELF_SEGMENTS then |loads| else MAX_ELF_SEGMENTS)
    && forall s :: 0 <= s < |segments| ==>
         var ph := PhdrAt(data, loads[s]);
         segments[s] == Segment(ph.PageBase(), FrameAddr(placed[loads[s]]), ph.NumPages())
  }

  /** What the bounds are before any segment is seen. */
  const NO_MIN: nat := 0xFFFF_FFFF_FFFF_FFFF

  /** The bounds enclose every loadable segment among the first `n` headers, and some segment attains each. */
  ghost predicate Bounds(data: seq<Byte>, n: nat, info: ElfInfo) {
    && (forall i: nat :: i < n && IsLoad(data, i) ==>
                           info.minVaddr <= PhdrAt(data, i).vaddr
                           && PhdrAt(data, i).vaddr + PhdrAt(data, i).memsz <= info.maxVaddr)
    && (info.minVaddr == NO_MIN || exists i: nat :: i < n && IsLoad(data, i) && PhdrAt(data, i).vaddr == info.minVaddr)
    && (info.maxVaddr == 0 ||
        exists i: nat :: i < n && IsLoad(data, i) && PhdrAt(data, i).vaddr + PhdrAt(data, i).memsz == info.maxVaddr)
  }

  lemma BoundsStep(data: seq<Byte>, n: nat, info: ElfInfo, f: nat)
    requires Bounds(data, n, info)
    ensures Bounds(data, n + 1, if IsLoad(data, n) then Record(info, PhdrAt(data, n), f) else info)
  {
    hide PhdrAt, IsLoad;
    if info.minVaddr != NO_MIN {
      var i: nat :| i < n && IsLoad(data, i) && PhdrAt(data, i).vaddr == info.minVaddr;
      assert i < n + 1 && IsLoad(data, i);
    }
    if info.maxVaddr != 0 {
      var i: nat :| i < n && IsLoad(data, i) && PhdrAt(data, i).vaddr + PhdrAt(data, i).memsz == info.maxVaddr;
      assert i < n + 1 && IsLoad(data, i);
    }
    assert n < n + 1;
  }

  /** The first `n` headers have been dealt with. */
  ghost predicate Progress(m: seq<Byte>, bm: seq<Byte>, tables: Tables, root: nat, data: seq<Byte>, n: nat,
                           placed: seq<nat>, info: ElfInfo) {
    && Bounds(data, n, info) && Records(data, n, placed, info.segments)
    && forall j: nat :: j < n ==> LoadedAt(m, bm, tables, root, data, j, placed[j])
  }

  /** Loading one more segment leaves every earlier one loaded. */
  lemma ProgressLoad(m: seq<Byte>, bm: seq<Byte>, tables: Tables, m': seq<Byte>, bm': seq<Byte>, tables': Tables,
                     root: nat, data: seq<Byte>, i: nat, placed: seq<nat>, info: ElfInfo, f: nat)
    requires ImageOk(data) && i < PhdrCount(data) && IsLoad(data, i)
    requires Progress(m, bm, tables, root, data, i, placed, info)
    requires Advanced(m, bm, tables, m', bm', tables', root, SegmentPages(PhdrAt(data, i)))
    requires SegmentOk(data, PhdrAt(data, i)) && Loaded(m', bm', tables', root, data, PhdrAt(data, i), f)
    ensures Progress(m', bm', tables', root, data, i + 1, placed + [f], Record(info, PhdrAt(data, i), f))
  {
    hide PhdrAt, IsLoad, Bounds, Records, SegmentOk, Loaded, Advanced;
    var info' := Record(info, PhdrAt(data, i), f);
    BoundsStep(data, i, info, f);
    RecordsStep(data, i, placed, f, info.segments, info'.segments);
    forall j: nat | j < i + 1 ensures LoadedAt(m', bm', tables', root, data, j, (placed + [f])[j]) {
      if j < i && IsLoad(data, j) {
        assert LoadedAt(m, bm, tables, root, data, j, placed[j]);
        LoadedPersists(m, bm, tables, m', bm', tables', root, SegmentPages(PhdrAt(data, i)),
                       data, PhdrAt(data, j), placed[j]);
      }
    }
  }

  lemma ProgressSkip(m: seq<Byte>, bm: seq<Byte>, tables: Tables, root: nat, data: seq<Byte>, i: nat,
                     placed: seq<nat>, info: ElfInfo)
    requires Progress(m, bm, tables, root, data, i, placed, info) && !IsLoad(data, i)
    ensures Progress(m, bm, tables, root, data, i + 1, placed + [0], info)
  {
    hide PhdrAt, IsLoad, Bounds, Records;
    BoundsStep(data, i, info, 0);
    RecordsStep(data, i, placed, 0, info.segments, info.segments);
    forall j: nat | j < i + 1 ensures LoadedAt(m, bm, tables, root, data, j, (placed + [0])[j]) {
      assert j < i ==> LoadedAt(m, bm, tables, root, data, j, placed[j]);
    }
  }

  lemma ProgressDone(m: seq<Byte>, bm: seq<Byte>, tables: Tables, root: nat, data: seq<Byte>,
                     placed: seq<nat>, info: ElfInfo)
    requires ImageOk(data) && Progress(m, bm, tables, root, data, PhdrCount(data), placed, info)
    ensures forall i: nat :: i < PhdrCount(data) && IsLoad(data, i) ==> Readable(m, root, data, PhdrAt(data, i))
    ensures forall s :: 0 <= s < |info.segments| ==>
                          MapsRun(m, root, info.segments[s].virtAddr, info.segments[s].physAddr,
                                  info.segments[s].numPages)
  {
    forall i: nat | i < PhdrCount(data) && IsLoad(data, i) ensures Readable(m, root, data, PhdrAt(data, i)) {
      assert LoadedAt(m, bm, tables, root, data, i, placed[i]);
      LoadedIsReadable(m, bm, tables, root, data, PhdrAt(data, i), placed[i]);
    }
    forall s | 0 <= s < |info.segments|
      ensures MapsRun(m, root, info.segments[s].virtAddr, info.segments[s].physAddr, info.segments[s].numPages)
    {
      var i := LoadHeaders(data, PhdrCount(data))[s];
      assert LoadedAt(m, bm, tables, root, data, i, placed[i]);
    }
  }

  /** The body of the program-header loop. */
  method LoadHeader(space: AddressSpace, data: seq<Byte>, i: nat, info: ElfInfo, ghost placed: seq<nat>)
    returns (ok: bool, info': ElfInfo, ghost placed': seq<nat>)
    requires space.Valid() && space.Seen() && ImageOk(data) && i < PhdrCount(data)
    requires Progress(space.frames.pool[..], space.frames.bitmap[..], space.tables, space.root, data, i, placed, info)
    modifies space`tables, space.frames.bitmap, space.frames.pool
    ensures space.Valid() && space.Seen() && info'.entryPoint == info.entryPoint
    ensures ok ==> Progress(space.frames.pool[..], space.frames.bitmap[..], space.tables, space.root,
                            data, i + 1, placed', info')
    ensures !ok ==> IsLoad(data, i) && NoRoom(space.frames.bitmap[..], PhdrAt(data, i).NumPages())
  {
    hide PoolSeen, ClearOfPool;
    ghost var m, bm, tables := space.frames.pool[..], space.frames.bitmap[..], space.tables;
    ok, info', placed' := true, info, placed + [0];
    if IsLoad(data, i) {
      var f;
      ok, f := LoadSegment(space, data, PhdrAt(data, i));
      if ok {
        ProgressLoad(m, bm, tables, space.frames.pool[..], space.frames.bitmap[..], space.tables,
                     space.root, data, i, placed, info, f);
        info', placed' := Record(info, PhdrAt(data, i), f), placed + [f];
      }
    } else {
      ProgressSkip(m, bm, tables, space.root, data, i, placed, info);
    }
  }

  /** Some segment is empty or finds no run of free frames. */
  ghost predicate RanOut(bm: seq<Byte>, data: seq<Byte>) {
    exists i: nat :: i < PhdrCount(data) && IsLoad(data, i) && NoRoom(bm, PhdrAt(data, i).NumPages())
  }

  /** `elf_load_binary` */
  method LoadBinary(space: AddressSpace, data: seq<Byte>) returns (ok: bool, info: ElfInfo)
    requires space.Valid() && space.Seen() && (HeaderOk(data) ==> ImageOk(data))
    modifies space`tables, space.frames.bitmap, space.frames.pool
    ensures space.Valid() && space.Seen()
    ensures !ok ==> !HeaderOk(data) || RanOut(space.frames.bitmap[..], data)
    ensures ok ==> HeaderOk(data) && info.entryPoint == Le(data, 24, XWORD) && Bounds(data, PhdrCount(data), info)
    ensures ok ==> forall i: nat :: i < PhdrCount(data) && IsLoad(data, i) ==>
                                      Readable(space.frames.pool[..], space.root, data, PhdrAt(data, i))
    ensures ok ==> (exists placed :: Records(data, PhdrCount(data), placed, info.segments))
    ensures ok ==> forall s :: 0 <= s < |info.segments| ==>
                                 MapsRun(space.frames.pool[..], space.root, info.segments[s].virtAddr,
                                         info.segments[s].physAddr, info.segments[s].numPages)
  {
    info := ElfInfo(0, 0, 0, []);
    if |data| < 64 { return false, info; }
    if Le(data, 0, WORD) != 0x464C457F { return false, info; }
    if data[4] != 2 || Le(data, 18, HALF) != 0x3E { return false, info; }
    ok, info := LoadSegments(space, data);
  }

  method LoadSegments(space: AddressSpace, data: seq<Byte>) returns (ok: bool, info: ElfInfo)
    requires space.Valid() && space.Seen() && ImageOk(data)
    modifies space`tables, space.frames.bitmap, space.frames.pool
    ensures space.Valid() && space.Seen() && info.entryPoint == Le(data, 24, XWORD)
    ensures !ok ==> RanOut(space.frames.bitmap[..], data)
    ensures ok ==> Bounds(data, PhdrCount(data), info)
    ensures ok ==> forall i: nat :: i < PhdrCount(data) && IsLoad(data, i) ==>
                                      Readable(space.frames.pool[..], space.root, data, PhdrAt(data, i))
    ensures ok ==> (exists placed :: Records(data, PhdrCount(data), placed, info.segments))
    ensures ok ==> forall s :: 0 <= s < |info.segments| ==>
                                 MapsRun(space.frames.pool[..], space.root, info.segments[s].virtAddr,
                                         info.segments[s].physAddr, info.segments[s].numPages)
  {
    info := ElfInfo(Le(data, 24, XWORD), NO_MIN, 0, []);
    ghost var placed: seq<nat> := [];
    ok := true;
    var i := 0;
    while i < PhdrCount(data) && ok
      invariant 0 <= i <= PhdrCount(data) && space.Valid() && space.Seen() && info.entryPoint == Le(data, 24, XWORD)
      invariant ok ==> Progress(space.frames.pool[..], space.frames.bitmap[..], space.tables, space.root,
                                data, i, placed, info)
      invariant !ok ==> RanOut(space.frames.bitmap[..], data)
    {
      ok, info, placed := LoadHeader(space, data, i, info, placed);
      i := i + 1;
    }
    if ok {
      ProgressDone(space.frames.pool[..], space.frames.bitmap[..], space.tables, space.root, data, placed, info);
    }
  }

  lemma RecordsStep(data: seq<Byte>, i: nat, placed: seq<nat>, f: nat, segments: seq<Segment>, segments': seq<Segment>)
    requires Records(data, i, placed, segments)
    requires var ph := PhdrAt(data, i);
             segments' == if IsLoad(data, i) && |segments| < MAX_ELF_SEGMENTS
                          then segments + [Segment(ph.PageBase(), FrameAddr(f), ph.NumPages())] else segments
    ensures Records(data, i + 1, placed + [f], segments')
  {
    assert LoadHeaders(data, i + 1) == LoadHeaders(data, i) + if IsLoad(data, i) then [i] else [];
  }

  function Record(info: ElfInfo, ph: Phdr, f: nat): ElfInfo {
    info.(minVaddr := if ph.vaddr < info.minVaddr then ph.vaddr else info.minVaddr,
          maxVaddr := if ph.vaddr + ph.memsz > info.maxVaddr then ph.vaddr + ph.memsz else info.maxVaddr,
          segments := if |info.segments| < MAX_ELF_SEGMENTS
                      then info.segments + [Segment(ph.PageBase(), FrameAddr(f), ph.NumPages())]
                      else info.segments)
  }
}
