/**
 The page mapper of kernel/mm/memory.c: `mm_init`, `map_page`,
 `map_user_pages`, `get_pte_ptr`, `unmap_page` and `get_phys_mapping`, working
 in place on the bytes of the frame pool.
 */
module Paging {
  import opened Arith
  import opened Bytes
  import opened Frames
  import opened Options
  import opened PageTree
  import opened PoolView

  /** Every byte of frame `f` is kept. */
  ghost predicate FrameKept(m: seq<Byte>, m': seq<Byte>, f: nat) {
    |m'| == |m| && forall a :: f * 4096 <= a < (f + 1) * 4096 && a < |m| ==> m'[a] == m[a]
  }

  /** The frames in use that hold no table keep their contents. */
  ghost predicate DataKept(m: seq<Byte>, m': seq<Byte>, bm: seq<Byte>, tables: Tables) {
    |m'| == |m| && forall f: nat :: f < MAX_PAGES && BitAt(bm, f) && f !in tables ==> FrameKept(m, m', f)
  }

  /** Between two moments only free frames were taken, each as a new table. */
  ghost predicate Grown(bm: seq<Byte>, tables: Tables, bm': seq<Byte>, tables': Tables) {
    && (forall f :: f in tables ==> f in tables' && tables'[f] == tables[f])
    && (forall f: nat :: f in tables' && f !in tables ==> !BitAt(bm, f))
    && (forall f: nat :: BitAt(bm', f) <==> BitAt(bm, f) || (f in tables' && f !in tables))
  }

  /** The tables grew, but no data frame and no translation changed. */
  ghost predicate Extended(m: seq<Byte>, bm: seq<Byte>, tables: Tables,
                           m': seq<Byte>, bm': seq<Byte>, tables': Tables, root: nat) {
    && DataKept(m, m', bm, tables)
    && Grown(bm, tables, bm', tables')
    && forall p: nat :: p < VIRTUAL_PAGES ==> Translate(m', root, p) == Translate(m, root, p)
  }

  /** As `Extended`, but the translation of the pages in `pages` is free to change. */
  ghost predicate Remapped(m: seq<Byte>, bm: seq<Byte>, tables: Tables,
                           m': seq<Byte>, bm': seq<Byte>, tables': Tables, root: nat, pages: set<nat>) {
    && DataKept(m, m', bm, tables)
    && Grown(bm, tables, bm', tables')
    && forall p: nat :: p < VIRTUAL_PAGES && p !in pages ==> Translate(m', root, p) == Translate(m, root, p)
  }

  lemma KeptFrameKeepsEntries(m: seq<Byte>, m': seq<Byte>, f: nat, k: nat)
    requires |m| == POOL_BYTES && f < MAX_PAGES && k < 512 && FrameKept(m, m', f)
    ensures SameEntry(m, m', f, k)
  {
    LeDependsOnBytes(m, m', f * 4096 + k * 8, 8);
  }

  lemma KeptTables(m: seq<Byte>, m': seq<Byte>, tables: Tables, root: int)
    requires Tree(m, tables, root) && forall f :: f in tables ==> 0 <= f && FrameKept(m, m', f)
    ensures Tree(m', tables, root)
    ensures forall f, k: nat :: f in tables && 0 <= f && k < 512 ==> SameEntry(m, m', f, k)
    ensures forall vp: nat :: vp < VIRTUAL_PAGES ==> Walk(m', root, LEVELS, vp) == Walk(m, root, LEVELS, vp)
    ensures forall vp: nat, stop: nat :: vp < VIRTUAL_PAGES && 1 <= stop <= 4 ==>
                                           TableAt(m', root, LEVELS, stop, vp) == TableAt(m, root, LEVELS, stop, vp)
  {
    assert FrameKept(m, m', root);
    forall f, k: nat | f in tables && 0 <= f && k < 512 ensures SameEntry(m, m', f, k) {
      KeptFrameKeepsEntries(m, m', f, k);
    }
    forall f, k: nat | f in tables && k < 512 ensures EntryOk(m', tables, f, k) {
      assert EntryOk(m, tables, f, k) && SameEntry(m, m', f, k);
    }
    forall vp: nat | vp < VIRTUAL_PAGES
      ensures Walk(m', root, LEVELS, vp) == Walk(m, root, LEVELS, vp)
    {
      UpOfPage(vp);
      WalkSame(m, m', tables, root, root, LEVELS, vp);
    }
    forall vp: nat, stop: nat | vp < VIRTUAL_PAGES && 1 <= stop <= 4
      ensures TableAt(m', root, LEVELS, stop, vp) == TableAt(m, root, LEVELS, stop, vp)
    {
      UpOfPage(vp);
      TableAtSame(m, m', tables, root, root, LEVELS, stop, vp);
    }
  }

  /** Storing an entry changes that entry, no other entry, and no other frame. */
  lemma StoredEntry(m: seq<Byte>, m': seq<Byte>, f: nat, k: nat, v: nat)
    requires |m| == POOL_BYTES && f < MAX_PAGES && k < 512 && v < 0x1_0000_0000_0000_0000
    requires m' == PutLe(m, f * 4096 + k * 8, 8, v)
    ensures Entry(m', f, k) == v
    ensures forall g: nat, j: nat :: g < MAX_PAGES && j < 512 && (g != f || j != k) ==> SameEntry(m, m', g, j)
    ensures forall g: nat :: g < MAX_PAGES && g != f ==> FrameKept(m, m', g)
  {
    FullWordValue();
    PutLeReads(m, f * 4096 + k * 8, 8, v);
    forall g: nat, j: nat | g < MAX_PAGES && j < 512 && (g != f || j != k) ensures SameEntry(m, m', g, j) {
      assert g * 4096 + j * 8 + 8 <= f * 4096 + k * 8 || f * 4096 + k * 8 + 8 <= g * 4096 + j * 8;
    }
  }

  ghost predicate AllUsed(bm: seq<Byte>, tables: Tables) {
    forall f :: f in tables ==> 0 <= f && BitAt(bm, f)
  }

  /** Exactly the first `n` frames are in use. */
  ghost predicate FirstUsed(bm: seq<Byte>, n: nat) {
    forall f: nat :: BitAt(bm, f) <==> f < n
  }

  /** What an allocation of one frame returns. */
  ghost predicate LowestFree(bm: seq<Byte>, t: nat) {
    !BitAt(bm, t) && forall f: nat :: f < t ==> BitAt(bm, f)
  }

  lemma NextUsed(bm: seq<Byte>, tables: Tables, bm': seq<Byte>, tables': Tables, t: nat, node: Node, n: nat)
    requires FirstUsed(bm, n) && LowestFree(bm, t) && t !in tables && tables' == tables[t := node]
    requires Grown(bm, tables, bm', tables')
    ensures FirstUsed(bm', n + 1)
  {
    assert !BitAt(bm, n) && t == n;
  }

  class AddressSpace {
    const frames: FrameAllocator
    var root: nat
    ghost var tables: Tables

    /** The page tables form a tree of distinct frames, all marked used. */
    ghost predicate Valid()
      reads this, frames.bitmap, frames.pool
    {
      && frames.Valid()
      && Tree(frames.pool[..], tables, root)
      && AllUsed(frames.bitmap[..], tables)
    }

    /** The kernel's pointers to tables and frames mean what they say. */
    ghost predicate Seen()
      reads this, frames.pool
    {
      PoolSeen(frames.pool[..], root)
    }

    /** `mm_init`: a fresh bitmap, and the first 4 GB identity-mapped with 2 MB pages. */
    constructor (frames: FrameAllocator)
      requires frames.Valid()
      modifies frames.bitmap, frames.pool
      ensures this.frames == frames && Valid()
      ensures Identity(frames.pool[..], root, 0x10_0000) && Seen()
      ensures forall f: nat :: BitAt(frames.bitmap[..], f) <==> f in tables
      ensures root == 0 && FirstUsed(frames.bitmap[..], 6)
    {
      this.frames := frames;
      root := 0;
      tables := map[];
      new;
      for i := 0 to MAX_PAGES / 8
        invariant forall j :: 0 <= j < i ==> frames.bitmap[j] == 0
      {
        frames.bitmap[i] := 0;
      }
      forall f: nat ensures !BitAt(frames.bitmap[..], f) { ZeroHasNoBits(f % 8); }
      AllClear(frames.bitmap[..], MAX_PAGES);

      InstallRoot();
      var pdpt := AddUpper();
      for gb := 0 to 4
        invariant UpTo(pdpt, gb)
      {
        AddDirectory(pdpt, gb);
      }
      IdentitySeen(frames.pool[..], root, 0x10_0000);
    }

    /** The state of `mm_init` after `gb` gigabytes. */
    ghost predicate UpTo(pdpt: nat, gb: nat)
      reads this, frames.bitmap, frames.pool
    {
      && Valid() && pdpt in tables && tables[pdpt] == Node(3, 0)
      && FreeFrames(frames.bitmap[..]) + 2 + gb >= MAX_PAGES
      && (forall f: nat :: BitAt(frames.bitmap[..], f) <==> f in tables)
      && root == 0 && FirstUsed(frames.bitmap[..], 2 + gb)
      && Entry(frames.pool[..], root, 0) == FrameAddr(pdpt) + 7
      && (forall k: nat :: gb <= k < 512 ==> Entry(frames.pool[..], pdpt, k) == 0)
      && Identity(frames.pool[..], root, gb * 0x4_0000)
    }

    method AddUpper() returns (pdpt: nat)
      requires Valid() && tables == map[root as int := Node(LEVELS, 0)]
      requires FreeFrames(frames.bitmap[..]) == MAX_PAGES - 1
      requires root == 0 && FirstUsed(frames.bitmap[..], 1) && Identity(frames.pool[..], root, 0)
      requires forall f: nat :: BitAt(frames.bitmap[..], f) <==> f == root
      requires forall k: nat :: k < 512 ==> Entry(frames.pool[..], root, k) == 0
      modifies this`tables, frames.bitmap, frames.pool
      ensures UpTo(pdpt, 0)
    {
      hide FirstUsed, LowestFree, FreeFrames, BitAt;
      ghost var bm, t := frames.bitmap[..], tables;
      var ok;
      ok, pdpt := NewTable(root, 0, false);
      NextUsed(bm, t, frames.bitmap[..], tables, pdpt, tables[pdpt], 1);
    }

    method AddDirectory(pdpt: nat, gb: nat)
      requires gb < 4 && UpTo(pdpt, gb)
      modifies this`tables, frames.bitmap, frames.pool
      ensures UpTo(pdpt, gb + 1)
    {
      hide FirstUsed, LowestFree, FreeFrames, BitAt;
      ghost var m, bm, t := frames.pool[..], frames.bitmap[..], tables;
      var ok, pd := NewTable(pdpt, gb, false);
      NextUsed(bm, t, frames.bitmap[..], tables, pd, tables[pd], 2 + gb);
      assert SameEntry(m, frames.pool[..], root, 0);
      forall k: nat | gb < k < 512 ensures Entry(frames.pool[..], pdpt, k) == 0 {
        assert SameEntry(m, frames.pool[..], pdpt, k);
      }
      m := frames.pool[..];
      FillDirectory(pdpt, pd, gb);
      KeptFrameKeepsEntries(m, frames.pool[..], root, 0);
      forall k: nat | gb < k < 512 ensures Entry(frames.pool[..], pdpt, k) == 0 {
        KeptFrameKeepsEntries(m, frames.pool[..], pdpt, k);
      }
    }

    method InstallRoot()
      requires frames.Valid() && FreeFrames(frames.bitmap[..]) == MAX_PAGES
      requires forall f: nat :: !BitAt(frames.bitmap[..], f)
      modifies this, frames.bitmap, frames.pool
      ensures Valid() && tables == map[root as int := Node(LEVELS, 0)]
      ensures FreeFrames(frames.bitmap[..]) == MAX_PAGES - 1
      ensures forall f: nat :: BitAt(frames.bitmap[..], f) <==> f == root
      ensures root == 0 && FirstUsed(frames.bitmap[..], 1)
      ensures forall k: nat :: k < 512 ==> Entry(frames.pool[..], root, k) == 0
      ensures Identity(frames.pool[..], root, 0)
    {
      SingleFrameAvailable(frames.bitmap[..]);
      assert FreeRun(frames.bitmap[..], 0, 1);
      var addr := frames.AllocPages(1);
      root := (addr - POOL_BASE) / 4096;
      tables := map[root as int := Node(LEVELS, 0)];
      ghost var m := frames.pool[..];
      forall k: nat | k < 512 ensures Entry(m, root, k) == 0 {
        ZeroWord(m, root * 4096 + k * 8, 8);
      }
      forall f, k: nat | f in tables && k < 512 ensures EntryOk(m, tables, f, k) {
        assert Entry(m, root, k) == 0;
      }
      forall vp: nat | vp < VIRTUAL_PAGES ensures Translate(m, root, vp) == None {
        assert Entry(m, root, Index(vp, 4)) == 0;
      }
    }

    /** The inner loop of `mm_init`: 512 entries of 2 MB each. */
    method FillDirectory(pdpt: nat, pd: nat, gb: nat)
      requires Valid() && gb < 4 && pd in tables && pdpt in tables
      requires tables[pd] == Node(2, gb) && tables[pdpt] == Node(3, 0)
      requires Entry(frames.pool[..], root, 0) == FrameAddr(pdpt) + 7
      requires Entry(frames.pool[..], pdpt, gb) == FrameAddr(pd) + 7
      requires forall k: nat :: k < 512 ==> Entry(frames.pool[..], pd, k) == 0
      requires Identity(frames.pool[..], root, gb * 0x4_0000)
      modifies frames.pool
      ensures Valid()
      ensures OthersKept(old(frames.pool[..]), frames.pool[..], pd)
      ensures Identity(frames.pool[..], root, (gb + 1) * 0x4_0000)
    {
      ghost var m0 := frames.pool[..];
      assert gb * 0x4_0000 + 0 * 512 == gb * 0x4_0000;
      for entry := 0 to 512
        invariant Valid() && DirectoryUpTo(m0, frames.pool[..], root, pdpt, pd, gb, entry)
      {
        SetHuge(m0, pdpt, pd, gb, entry);
      }
      assert gb * 0x4_0000 + 512 * 512 == (gb + 1) * 0x4_0000;
    }

    method SetHuge(ghost m0: seq<Byte>, ghost pdpt: nat, pd: nat, gb: nat, entry: nat)
      requires Valid() && gb < 4 && entry < 512 && pd in tables && pdpt in tables
      requires tables[pd] == Node(2, gb) && tables[pdpt] == Node(3, 0)
      requires DirectoryUpTo(m0, frames.pool[..], root, pdpt, pd, gb, entry)
      modifies frames.pool
      ensures Valid() && DirectoryUpTo(m0, frames.pool[..], root, pdpt, pd, gb, entry + 1)
    {
      ghost var m := frames.pool[..];
      SetEntry(pd, entry, gb * 0x4000_0000 + entry * 0x20_0000 + 0x87);
      DirectoryStep(m0, m, frames.pool[..], tables, root, pdpt, pd, gb, entry);
    }

    method SetEntry(f: nat, k: nat, v: nat)
      requires frames.Valid() && f < MAX_PAGES && k < 512
      modifies frames.pool
      ensures frames.pool[..] == PutLe(old(frames.pool[..]), f * 4096 + k * 8, 8, v)
    {
      var a := f * 4096 + k * 8;
      var bytes := LeBytes(v, 8);
      for j := 0 to 8
        invariant forall x :: 0 <= x < POOL_BYTES ==>
                                frames.pool[x] == if a <= x < a + j then bytes[x - a] else old(frames.pool[x])
      {
        frames.pool[a + j] := bytes[j];
      }
    }

    /** `alloc_page` for a new table: a zeroed frame that is no table yet. */
    method AllocTable() returns (ok: bool, t: nat)
      requires Valid()
      modifies frames.bitmap, frames.pool
      ensures Valid()
      ensures ok <==> FreeFrames(old(frames.bitmap[..])) > 0
      ensures !ok ==> frames.bitmap[..] == old(frames.bitmap[..]) && frames.pool[..] == old(frames.pool[..])
      ensures ok ==>
                && t < MAX_PAGES && LowestFree(old(frames.bitmap[..]), t)
                && Marked(old(frames.bitmap[..]), frames.bitmap[..], t, 1)
                && FreeFrames(frames.bitmap[..]) == FreeFrames(old(frames.bitmap[..])) - 1
                && (forall k: nat :: k < 512 ==> Entry(frames.pool[..], t, k) == 0)
                && OthersKept(old(frames.pool[..]), frames.pool[..], t)
    {
      ghost var m, bm := frames.pool[..], frames.bitmap[..];
      var addr := frames.AllocPages(1);
      SingleFrameAvailable(bm);
      if addr == NULL { return false, 0; }
      t := (addr - POOL_BASE) / 4096;
      ghost var m' := frames.pool[..];
      assert FreeRun(bm, t, 1) && !BitAt(bm, t);
      forall k: nat | k < t ensures BitAt(bm, k) { assert !FreeRun(bm, k, 1); }
      forall f: nat | f < MAX_PAGES && f != t ensures FrameKept(m, m', f) {}
      forall k: nat | k < 512 ensures Entry(m', t, k) == 0 {
        ZeroWord(m', t * 4096 + k * 8, 8);
      }
      KeptTables(m, m', tables, root);
      return true, t;
    }

    /** A fresh frame that says, as a table, what entry `e` said. */
    method PrepareTable(e: nat, directory: bool) returns (ok: bool, t: nat)
      requires Valid() && e < 0x1_0000_0000_0000_0000
      requires if directory && Huge(e) then Present(e) else e == 0
      modifies frames.bitmap, frames.pool
      ensures Valid()
      ensures ok <==> FreeFrames(old(frames.bitmap[..])) > 0
      ensures !ok ==> frames.bitmap[..] == old(frames.bitmap[..]) && frames.pool[..] == old(frames.pool[..])
      ensures ok ==>
                && t < MAX_PAGES && LowestFree(old(frames.bitmap[..]), t)
                && Marked(old(frames.bitmap[..]), frames.bitmap[..], t, 1)
                && FreeFrames(frames.bitmap[..]) == FreeFrames(old(frames.bitmap[..])) - 1
                && OthersKept(old(frames.pool[..]), frames.pool[..], t)
                && Replaces(frames.pool[..], t, if directory then 2 else 3, e)
    {
      ghost var m0 := frames.pool[..];
      ok, t := AllocTable();
      if ok && directory && Huge(e) {
        ghost var m1 := frames.pool[..];
        FillSplitTable(t, e);
        forall g: nat | g < MAX_PAGES && g != t ensures FrameKept(m0, frames.pool[..], g) {
          assert FrameKept(m0, m1, g) && FrameKept(m1, frames.pool[..], g);
        }
      }
    }

    /** Hang the prepared table `t` below entry `k` of table `f`. */
    method Hang(f: nat, k: nat, t: nat)
      requires Valid() && f in tables && tables[f].level > 1 && k < 512
      requires t < MAX_PAGES && t !in tables && BitAt(frames.bitmap[..], t)
      requires Replaces(frames.pool[..], t, tables[f].level, Entry(frames.pool[..], f, k))
      modifies this`tables, frames.pool
      ensures Valid() && tables == old(tables)[t := Child(old(tables)[f], k)]
      ensures Entry(frames.pool[..], f, k) == FrameAddr(t) + 7
      ensures forall g: nat :: g < MAX_PAGES && g != f ==> FrameKept(old(frames.pool[..]), frames.pool[..], g)
      ensures KeptExcept(old(frames.pool[..]), frames.pool[..], old(tables), f, k)
      ensures forall j: nat :: j < 512 ==> SameEntry(old(frames.pool[..]), frames.pool[..], t, j)
      ensures forall vp: nat :: vp < VIRTUAL_PAGES ==>
                                  Translate(frames.pool[..], root, vp) == Translate(old(frames.pool[..]), root, vp)
    {
      ghost var m := frames.pool[..];
      SetEntry(f, k, FrameAddr(t) + 7);
      ghost var m' := frames.pool[..];
      StoredEntry(m, m', f, k, FrameAddr(t) + 7);
      forall j: nat | j < 512 ensures Entry(m', t, j) == Entry(m, t, j) { assert SameEntry(m, m', t, j); }
      assert Linked(m, m', tables, f, k, t);
      LinkKeepsTree(m, m', tables, root, f, k, t);
      LinkKeepsTranslations(m, m', tables, root, f, k, t);
      tables := tables[t := Child(tables[f], k)];
    }

    /** Allocate a table for entry `k` of table `f`, empty or holding the 512 pages of the 2 MB page it replaces. */
    method NewTable(f: nat, k: nat, directory: bool) returns (ok: bool, t: nat)
      requires Valid() && f in tables && tables[f].level > 1 && k < 512
      requires directory == (tables[f].level == 2)
      requires var e := Entry(frames.pool[..], f, k); !Present(e) || (tables[f].level == 2 && Huge(e))
      modifies this`tables, frames.bitmap, frames.pool
      ensures Valid()
      ensures ok <==> FreeFrames(old(frames.bitmap[..])) > 0
      ensures !ok ==> frames.bitmap[..] == old(frames.bitmap[..]) && frames.pool[..] == old(frames.pool[..]) &&
                      tables == old(tables)
      ensures ok ==>
                && t !in old(tables) && tables == old(tables)[t := Child(old(tables)[f], k)]
                && LowestFree(old(frames.bitmap[..]), t)
                && Entry(frames.pool[..], f, k) == FrameAddr(t) + 7
                && KeptExcept(old(frames.pool[..]), frames.pool[..], old(tables), f, k)
                && (tables[t].level > 1 ==> forall j: nat :: j < 512 ==> Entry(frames.pool[..], t, j) == 0)
                && FreeFrames(frames.bitmap[..]) == FreeFrames(old(frames.bitmap[..])) - 1
                && Extended(old(frames.pool[..]), old(frames.bitmap[..]), old(tables),
                            frames.pool[..], frames.bitmap[..], tables, root)
    {
      ghost var m0, bm0, tables0 := frames.pool[..], frames.bitmap[..], tables;
      assert EntryOk(m0, tables, f, k);
      EntryRange(m0, f, k);
      ok, t := PrepareTable(Entry(frames.pool[..], f, k), directory);
      if !ok { return; }
      ghost var m1 := frames.pool[..];
      KeptFrameKeepsEntries(m0, m1, f, k);
      Hang(f, k, t);
      forall j: nat | j < 512 && tables[t].level > 1 ensures Entry(frames.pool[..], t, j) == 0 {
        assert SameEntry(m1, frames.pool[..], t, j);
      }
      NewTableEffect(m0, bm0, tables0, m1, frames.bitmap[..], frames.pool[..], root, f, k, t);
    }

    /** One level of `map_page`: make sure entry `k` of table `f` leads to a table, allocating or splitting. */
    method EnsureTable(f: nat, k: nat, level: nat, ghost vp: nat) returns (ok: bool, t: nat)
      requires Valid() && vp < VIRTUAL_PAGES && 2 <= level <= 4 && k == Index(vp, level)
      requires TableAt(frames.pool[..], root, LEVELS, level, vp) == Some(f) && Seen()
      modifies this`tables, frames.bitmap, frames.pool
      ensures Valid() && Seen()
      ensures Extended(old(frames.pool[..]), old(frames.bitmap[..]), old(tables),
                       frames.pool[..], frames.bitmap[..], tables, root)
      ensures FreeFrames(old(frames.bitmap[..])) - FreeFrames(frames.bitmap[..]) ==
              MissingTables(old(frames.pool[..]), root, LEVELS, vp) - MissingTables(frames.pool[..], root, LEVELS, vp)
      ensures !ok ==> FreeFrames(frames.bitmap[..]) == 0 && MissingTables(frames.pool[..], root, LEVELS, vp) > 0
      ensures ok ==> TableAt(frames.pool[..], root, LEVELS, level - 1, vp) == Some(t)
    {
      hide PoolSeen;
      ghost var m := frames.pool[..];
      UpOfPage(vp);
      TableAtPlace(m, tables, root, root, LEVELS, level, vp);
      TableAtStep(m, root, LEVELS, level, vp);
      WalkVia(m, root, LEVELS, level, vp);
      assert EntryOk(m, tables, f, k);
      var e := Entry(frames.pool[..], f, k);
      if Present(e) && !(level == 2 && Huge(e)) {
        return true, Target(e);
      }
      ok, t := NewTable(f, k, level == 2);
      SameTranslationsSeen(m, frames.pool[..], root);
      if ok {
        NewTableReached(m, frames.pool[..], old(tables), tables, root, f, k, level, t, vp);
      }
    }

    /**
     `map_page`. It succeeds exactly when the free frames cover the missing
     tables; the source does not test for that, and goes on with a table at
     physical address zero. The kernel can go on using its tables exactly when the
     page is outside the pool or is given its own frame.
     */
    method MapPage(virt: nat, phys: nat, flags: nat) returns (ok: bool)
      requires Valid() && Seen() && virt < ADDRESSES && phys < ADDRESSES && flags < 4096
      modifies this`tables, frames.bitmap, frames.pool
      ensures Valid()
      ensures ok <==> FreeFrames(old(frames.bitmap[..])) >=
                      MissingTables(old(frames.pool[..]), root, LEVELS, PageOf(virt))
      ensures FreeFrames(old(frames.bitmap[..])) <= FreeFrames(frames.bitmap[..]) + 3
      ensures !ok ==> FreeFrames(frames.bitmap[..]) == 0
      ensures ok ==> Walk(frames.pool[..], root, LEVELS, PageOf(virt)) == Some(Leaf(phys, flags))
      ensures ok ==> TableAt(frames.pool[..], root, LEVELS, 1, PageOf(virt)).Some?
      ensures ok && Present(flags) ==>
                Translate(frames.pool[..], root, PageOf(virt)) == Some(Mapping(Leaf(phys, 0), flags))
      ensures ok ==> Remapped(old(frames.pool[..]), old(frames.bitmap[..]), old(tables),
                              frames.pool[..], frames.bitmap[..], tables, root, {PageOf(virt)})
      ensures !ok ==> Remapped(old(frames.pool[..]), old(frames.bitmap[..]), old(tables),
                               frames.pool[..], frames.bitmap[..], tables, root, {})
      ensures ok ==> (Seen() <==> !PoolPage(PageOf(virt)) || (Present(flags) && phys / 4096 == PageOf(virt)))
      ensures !ok ==> Seen()
    {
      hide PoolSeen;
      ghost var m0, bm0, tables0 := frames.pool[..], frames.bitmap[..], tables;
      var pt;
      ok, pt := EnsurePath(virt);
      if ok {
        ghost var m1 := frames.pool[..];
        LeafIndex(virt);
        LeafValue(phys, flags);
        LeafDecodes(phys, flags);
        SetLeaf(pt, (virt / 4096) % 512, Leaf(phys, flags), PageOf(virt));
        LeafEffect(m0, bm0, tables0, m1, frames.bitmap[..], tables, frames.pool[..], root, pt, PageOf(virt));
        LeafSeen(m0, frames.pool[..], root, PageOf(virt), phys, flags);
      }
    }

    /** The first three levels of `map_page`. */
    method EnsurePath(virt: nat) returns (ok: bool, pt: nat)
      requires Valid() && Seen() && virt < ADDRESSES
      modifies this`tables, frames.bitmap, frames.pool
      ensures Valid() && Seen()
      ensures Extended(old(frames.pool[..]), old(frames.bitmap[..]), old(tables),
                       frames.pool[..], frames.bitmap[..], tables, root)
      ensures ok <==> FreeFrames(old(frames.bitmap[..])) >=
                      MissingTables(old(frames.pool[..]), root, LEVELS, PageOf(virt))
      ensures FreeFrames(old(frames.bitmap[..])) <= FreeFrames(frames.bitmap[..]) + 3
      ensures !ok ==> FreeFrames(frames.bitmap[..]) == 0
      ensures ok ==> TableAt(frames.pool[..], root, LEVELS, 1, PageOf(virt)) == Some(pt)
    {
      hide PoolSeen;
      ghost var vp := PageOf(virt);
      IndicesOfAddress(virt);
      ghost var m0, bm0, tables0 := frames.pool[..], frames.bitmap[..], tables;
      var f;
      pt := 0;
      ok, f := EnsureTable(root, (virt / 0x80_0000_0000) % 512, 4, vp);
      if !ok { return; }
      ghost var m1, bm1, tables1 := frames.pool[..], frames.bitmap[..], tables;
      ok, f := EnsureTable(f, (virt / 0x4000_0000) % 512, 3, vp);
      ExtendedTrans(m0, bm0, tables0, m1, bm1, tables1, frames.pool[..], frames.bitmap[..], tables, root);
      if !ok { return; }
      m1, bm1, tables1 := frames.pool[..], frames.bitmap[..], tables;
      ok, pt := EnsureTable(f, (virt / 0x20_0000) % 512, 2, vp);
      ExtendedTrans(m0, bm0, tables0, m1, bm1, tables1, frames.pool[..], frames.bitmap[..], tables, root);
      if ok { WalkVia(frames.pool[..], root, LEVELS, 1, vp); }
    }

    /** The last store of `map_page`. */
    method SetLeaf(pt: nat, k: nat, v: nat, ghost vp: nat)
      requires Valid() && Seen() && vp < VIRTUAL_PAGES && v < ADDRESSES && k == Index(vp, 1)
      requires TableAt(frames.pool[..], root, LEVELS, 1, vp) == Some(pt)
      modifies frames.pool
      ensures Valid() && pt in tables
      ensures OthersKept(old(frames.pool[..]), frames.pool[..], pt)
      ensures Walk(frames.pool[..], root, LEVELS, vp) == Some(v)
      ensures TableAt(frames.pool[..], root, LEVELS, 1, vp) == Some(pt)
      ensures forall p: nat :: p < VIRTUAL_PAGES && p != vp ==>
                                 Walk(frames.pool[..], root, LEVELS, p) == Walk(old(frames.pool[..]), root, LEVELS, p)
    {
      hide PoolSeen;
      ghost var m := frames.pool[..];
      UpOfPage(vp);
      TableAtPlace(m, tables, root, root, LEVELS, 1, vp);
      SetEntry(pt, k, v);
      LeafStored(m, frames.pool[..], tables, root, pt, k, v, vp);
    }

    /**
     `map_user_pages`: `count` consecutive pages onto consecutive frames, present, writable and user.
     Each page but the last must leave the pool in view, for the next to find the tables.
     */
    method MapUserPages(virt: nat, phys: nat, count: nat) returns (ok: bool)
      requires Valid() && Seen() && count <= VIRTUAL_PAGES
      requires virt + count * 4096 <= ADDRESSES && phys + count * 4096 <= ADDRESSES
      requires RunKeepsPool(virt, phys, if count > 0 then count - 1 else 0)
      modifies this`tables, frames.bitmap, frames.pool
      ensures Valid()
      ensures FreeFrames(old(frames.bitmap[..])) >= 3 * count ==> ok
      ensures !ok ==> FreeFrames(frames.bitmap[..]) == 0
      ensures ok ==> MapsRun(frames.pool[..], root, virt, phys, count)
      ensures Remapped(old(frames.pool[..]), old(frames.bitmap[..]), old(tables),
                       frames.pool[..], frames.bitmap[..], tables, root, RunPages(virt, count))
      ensures if ok then Seen() <==> RunKeepsPool(virt, phys, count) else Seen()
    {
      hide PoolSeen, KeepsPool, MapsRun, Remapped, RunPages, FreeFrames, Tree, AllUsed;
      RunStart(frames.pool[..], frames.bitmap[..], tables, root, virt, phys);
      ghost var m0, bm0, tables0 := frames.pool[..], frames.bitmap[..], tables;
      for i := 0 to count
        invariant Valid()
        invariant FreeFrames(bm0) <= FreeFrames(frames.bitmap[..]) + 3 * i
        invariant MapsRun(frames.pool[..], root, virt, phys, i)
        invariant Seen() <==> RunKeepsPool(virt, phys, i)
        invariant Remapped(m0, bm0, tables0, frames.pool[..], frames.bitmap[..], tables, root, RunPages(virt, i))
      {
        ghost var m, bm, tabs := frames.pool[..], frames.bitmap[..], tables;
        ok := MapRunPage(virt, phys, i);
        if !ok {
          RunPagesMore(virt, i, count);
          RemappedTrans(m0, bm0, tables0, m, bm, tabs, frames.pool[..], frames.bitmap[..], tables, root,
                        RunPages(virt, i), {}, RunPages(virt, count));
          return;
        }
        RunAdvance(m0, bm0, tables0, m, bm, tabs, frames.pool[..], frames.bitmap[..], tables, root, virt, phys, i);
      }
      ok := true;
    }

    /** The body of the `map_user_pages` loop. */
    method MapRunPage(virt: nat, phys: nat, i: nat) returns (ok: bool)
      requires Valid() && Seen() && virt + i * 4096 < ADDRESSES && phys + i * 4096 < ADDRESSES
      modifies this`tables, frames.bitmap, frames.pool
      ensures Valid()
      ensures FreeFrames(old(frames.bitmap[..])) >= 3 ==> ok
      ensures FreeFrames(old(frames.bitmap[..])) <= FreeFrames(frames.bitmap[..]) + 3
      ensures !ok ==> FreeFrames(frames.bitmap[..]) == 0
      ensures ok ==> Translate(frames.pool[..], root, RunPage(virt, i)) == Some(Mapping(RunFrame(phys, i), 7))
      ensures Remapped(old(frames.pool[..]), old(frames.bitmap[..]), old(tables),
                       frames.pool[..], frames.bitmap[..], tables, root, if ok then {RunPage(virt, i)} else {})
      ensures if ok then Seen() <==> KeepsPool(RunPage(virt, i), RunFrame(phys, i)) else Seen()
    {
      hide PoolSeen;
      var v, p := virt + i * 4096, phys + i * 4096;
      assert RunPage(virt, i) == PageOf(v) && RunFrame(phys, i) == Leaf(p, 0);
      ok := MapPage(v, p, 7);
    }

    /** `*pte = 0` */
    method ClearLeaf(pt: nat, k: nat, ghost vp: nat)
      requires frames.Valid() && Tree(frames.pool[..], tables, root) && Seen() && vp < VIRTUAL_PAGES
      requires TableAt(frames.pool[..], root, LEVELS, 1, vp) == Some(pt) && k == Index(vp, 1)
      modifies frames.pool
      ensures Tree(frames.pool[..], tables, root)
      ensures Dropped(old(frames.pool[..]), frames.pool[..], root, vp) && (Seen() <==> !PoolPage(vp))
    {
      hide PoolSeen;
      ghost var m := frames.pool[..];
      UpOfPage(vp);
      TableAtPlace(m, tables, root, root, LEVELS, 1, vp);
      SetEntry(pt, k, 0);
      LeafStored(m, frames.pool[..], tables, root, pt, k, 0, vp);
      OnePageSeen(m, frames.pool[..], root, vp);
    }

    /**
     `get_pte_ptr`: table frame and slot of the 4 KB entry for `virt`; none
     under a 2 MB page or a missing table.
     */
    method GetPtePtr(virt: nat) returns (pte: Option<(nat, nat)>)
      requires Valid() && Seen()
      ensures pte == match TableAt(frames.pool[..], root, LEVELS, 1, PageOf(virt))
                     case None => None
                     case Some(pt) => Some((pt, Index(PageOf(virt), 1)))
    {
      ghost var m, vp := frames.pool[..], PageOf(virt);
      IndicesOfAddress(virt);
      UpOfPage(vp);
      TableAtStep(m, root, LEVELS, 4, vp);
      var e := Entry(frames.pool[..], root, (virt / 0x80_0000_0000) % 512);
      assert EntryOk(m, tables, root, Index(vp, 4));
      if !Present(e) { UpperNone(m, root, 4, vp); return None; }
      TableAtPlace(m, tables, root, root, LEVELS, 3, vp);
      TableAtStep(m, root, LEVELS, 3, vp);
      var pdpt := Target(e);
      e := Entry(frames.pool[..], pdpt, (virt / 0x4000_0000) % 512);
      assert EntryOk(m, tables, pdpt, Index(vp, 3));
      if !Present(e) { UpperNone(m, root, 3, vp); return None; }
      TableAtPlace(m, tables, root, root, LEVELS, 2, vp);
      TableAtStep(m, root, LEVELS, 2, vp);
      var pd := Target(e);
      e := Entry(frames.pool[..], pd, (virt / 0x20_0000) % 512);
      assert EntryOk(m, tables, pd, Index(vp, 2));
      if Huge(e) { return None; }
      if !Present(e) { return None; }
      var pt := Target(e);
      return Some((pt, (virt / 4096) % 512));
    }

    /** `get_phys_mapping`: the walk's answer for a 4 KB page, and zero otherwise. */
    method GetPhysMapping(virt: nat) returns (phys: nat)
      requires Valid() && Seen()
      ensures var hit := Translate(frames.pool[..], root, PageOf(virt));
              phys == if TableAt(frames.pool[..], root, LEVELS, 1, PageOf(virt)).Some? && hit.Some?
                      then hit.value.phys + virt % 4096 else 0
    {
      var pte := GetPtePtr(virt);
      if pte.None? { return 0; }
      WalkVia(frames.pool[..], root, LEVELS, 1, PageOf(virt));
      var e := Entry(frames.pool[..], pte.value.0, pte.value.1);
      assert Translate(frames.pool[..], root, PageOf(virt)) == Decode(Some(e));
      if Present(e) {
        return e / 4096 * 4096 + virt % 4096;
      }
      return 0;
    }

    /**
     `unmap_page`: drops a present 4 KB mapping and frees its frame. The tables
     stay all marked used exactly when the page did not map one of them, and stay
     in the kernel's reach exactly when the page was none of the pool's.
     */
    method UnmapPage(virt: nat)
      requires Valid() && Seen()
      modifies frames.bitmap, frames.pool
      ensures Tree(frames.pool[..], tables, root)
      ensures var vp, m := PageOf(virt), old(frames.pool[..]);
              if TableAt(m, root, LEVELS, 1, vp).Some? && Translate(m, root, vp).Some?
              then
                var phys := Translate(m, root, vp).value.phys;
                && Dropped(m, frames.pool[..], root, vp)
                && (forall f: nat :: BitAt(frames.bitmap[..], f) <==>
                                     BitAt(old(frames.bitmap[..]), f) && phys != FrameAddr(f))
                && (Valid() <==> forall f :: f in tables ==> phys != FrameAddr(f))
                && (Seen() <==> !PoolPage(vp))
              else frames.bitmap[..] == old(frames.bitmap[..]) && frames.pool[..] == m
    {
      ghost var m, bm, vp := frames.pool[..], frames.bitmap[..], PageOf(virt);
      var pte := GetPtePtr(virt);
      if pte.None? { return; }
      WalkVia(m, root, LEVELS, 1, vp);
      var e := Entry(frames.pool[..], pte.value.0, pte.value.1);
      if Present(e) {
        var phys := e / 4096 * 4096;
        PageAligned(e / 4096);
        assert Translate(m, root, vp) == Some(Mapping(phys, e % 4096));
        ClearAndFree(phys, pte.value.0, pte.value.1, vp);
      }
    }

    method ClearAndFree(phys: nat, pt: nat, k: nat, ghost vp: nat)
      requires Valid() && Seen() && vp < VIRTUAL_PAGES && phys % 4096 == 0
      requires TableAt(frames.pool[..], root, LEVELS, 1, vp) == Some(pt) && k == Index(vp, 1)
      modifies frames.bitmap, frames.pool
      ensures Tree(frames.pool[..], tables, root) && Dropped(old(frames.pool[..]), frames.pool[..], root, vp)
      ensures forall f: nat :: BitAt(frames.bitmap[..], f) <==>
                               BitAt(old(frames.bitmap[..]), f) && phys != FrameAddr(f)
      ensures Valid() <==> forall f :: f in tables ==> phys != FrameAddr(f)
      ensures Seen() <==> !PoolPage(vp)
    {
      hide PoolSeen;
      ghost var bm := frames.bitmap[..];
      frames.FreePage(phys);
      ghost var bm' := frames.bitmap[..];
      FreedFrame(bm, bm', tables, phys);
      ClearLeaf(pt, k, vp);
      assert frames.bitmap[..] == bm';
    }

    /** The loop that turns one 2 MB entry into 512 small ones. */
    method FillSplitTable(t: nat, e: nat)
      requires Valid() && t < MAX_PAGES && t !in tables && e < 0x1_0000_0000_0000_0000
      modifies frames.pool
      ensures Valid()
      ensures Filled(frames.pool[..], t, 512, e - e % 0x20_0000)
      ensures OthersKept(old(frames.pool[..]), frames.pool[..], t)
    {
      ghost var m := frames.pool[..];
      var huge := e - e % 0x20_0000;
      for i := 0 to 512
        invariant Filled(frames.pool[..], t, i, huge)
        invariant OthersKept(m, frames.pool[..], t)
      {
        ghost var mi := frames.pool[..];
        SetEntry(t, i, huge + i * 4096 + 7);
        FillStep(m, mi, frames.pool[..], t, i, huge);
      }
      KeptTables(m, frames.pool[..], tables, root);
    }
  }

  ghost predicate OthersKept(m: seq<Byte>, m': seq<Byte>, t: nat) {
    |m'| == |m| && forall g: nat :: g < MAX_PAGES && g != t ==> FrameKept(m, m', g)
  }

  ghost predicate Filled(m: seq<Byte>, t: nat, n: nat, huge: nat) {
    forall k: nat :: k < n ==> Entry(m, t, k) == huge + k * 4096 + 7
  }

  lemma FillStep(m: seq<Byte>, mi: seq<Byte>, mi': seq<Byte>, t: nat, i: nat, huge: nat)
    requires |mi| == POOL_BYTES && t < MAX_PAGES && i < 512
    requires huge % 0x20_0000 == 0 && huge < 0x1_0000_0000_0000_0000
    requires Filled(mi, t, i, huge) && OthersKept(m, mi, t)
    requires mi' == PutLe(mi, t * 4096 + i * 8, 8, huge + i * 4096 + 7)
    ensures Filled(mi', t, i + 1, huge) && OthersKept(m, mi', t)
  {
    StoredEntry(mi, mi', t, i, huge + i * 4096 + 7);
    forall k: nat | k < i ensures Entry(mi', t, k) == huge + k * 4096 + 7 {
      assert SameEntry(mi, mi', t, k);
    }
    forall g: nat | g < MAX_PAGES && g != t ensures FrameKept(m, mi', g) {
      assert FrameKept(m, mi, g) && FrameKept(mi, mi', g);
    }
  }

  lemma EntryRange(m: seq<Byte>, f: nat, k: nat)
    ensures Entry(m, f, k) < 0x1_0000_0000_0000_0000
  {
    LeRange(m, f * 4096 + k * 8, 8);
    FullWordValue();
  }

  /** Preparing and hanging a table touches one entry of one old table and no data frame. */
  lemma NewTableEffect(m0: seq<Byte>, bm0: seq<Byte>, tables: Tables, m1: seq<Byte>, bm1: seq<Byte>, m2: seq<Byte>,
                       root: int, f: int, k: nat, t: nat)
    requires Tree(m0, tables, root) && AllUsed(bm0, tables) && f in tables && tables[f].level > 1
    requires t < MAX_PAGES && !BitAt(bm0, t) && Marked(bm0, bm1, t, 1) && OthersKept(m0, m1, t)
    requires KeptExcept(m1, m2, tables, f, k)
    requires forall g: nat :: g < MAX_PAGES && g != f ==> FrameKept(m1, m2, g)
    requires forall p: nat :: p < VIRTUAL_PAGES ==> Translate(m2, root, p) == Translate(m1, root, p)
    ensures t !in tables && KeptExcept(m0, m2, tables, f, k)
    ensures Extended(m0, bm0, tables, m2, bm1, tables[t := Child(tables[f], k)], root)
  {
    KeptTables(m0, m1, tables, root);
    forall g: nat | g < MAX_PAGES && BitAt(bm0, g) && g !in tables ensures FrameKept(m0, m2, g) {
      assert FrameKept(m0, m1, g) && FrameKept(m1, m2, g);
    }
    forall g, j: nat | g in tables && 0 <= g && j < 512 && (g != f || j != k) ensures SameEntry(m0, m2, g, j) {
      assert SameEntry(m0, m1, g, j) && SameEntry(m1, m2, g, j);
    }
  }

  /** After a table has been hung on the path of `vp`, the walk reaches it and one table fewer is missing. */
  lemma NewTableReached(m: seq<Byte>, m': seq<Byte>, tables: Tables, tables': Tables, root: int,
                        f: int, k: nat, level: nat, t: nat, vp: nat)
    requires Tree(m, tables, root) && vp < VIRTUAL_PAGES && 2 <= level <= 4
    requires TableAt(m, root, LEVELS, level, vp) == Some(f) && k == Index(vp, level)
    requires f in tables && tables[f] == Node(level, Up(vp, level)) && t < MAX_PAGES
    requires KeptExcept(m, m', tables, f, k) && Entry(m', f, k) == FrameAddr(t) + 7
    requires level > 2 ==> forall j: nat :: j < 512 ==> Entry(m', t, j) == 0
    ensures TableAt(m', root, LEVELS, level - 1, vp) == Some(t)
    ensures MissingTables(m', root, LEVELS, vp) == level - 2
  {
    UpOfPage(vp);
    forall g | g in tables && Serves(tables[g], vp) && tables[g].level > level
      ensures SameEntry(m, m', g, Index(vp, tables[g].level)) {}
    TableAtSame(m, m', tables, root, root, LEVELS, level, vp);
    TableEntry(t);
    TableAtStep(m', root, LEVELS, level, vp);
    WalkVia(m', root, LEVELS, level - 1, vp);
  }

  /** Pages below `n` translate to themselves, supervisor and user writable; nothing else is mapped. */
  ghost predicate Identity(m: seq<Byte>, root: nat, n: nat) {
    forall vp: nat :: vp < VIRTUAL_PAGES ==>
                        Translate(m, root, vp) == if vp < n then Some(Mapping(vp * 4096, 7)) else None
  }

  /** The state of the directory loop after `entry` entries. */
  ghost predicate DirectoryUpTo(m0: seq<Byte>, m: seq<Byte>, root: nat, pdpt: nat, pd: nat, gb: nat, entry: nat) {
    && OthersKept(m0, m, pd)
    && Entry(m, root, 0) == FrameAddr(pdpt) + 7 && Entry(m, pdpt, gb) == FrameAddr(pd) + 7
    && (forall k: nat :: entry <= k < 512 ==> Entry(m, pd, k) == 0)
    && Identity(m, root, gb * 0x4_0000 + entry * 512)
  }

  /** One 2 MB entry extends the identity map by 512 pages. */
  lemma DirectoryStep(m0: seq<Byte>, m: seq<Byte>, m': seq<Byte>, tables: Tables, root: int, pdpt: int, pd: int,
                      gb: nat, entry: nat)
    requires Tree(m, tables, root) && gb < 4 && entry < 512
    requires pd in tables && pdpt in tables && tables[pd] == Node(2, gb) && tables[pdpt] == Node(3, 0)
    requires DirectoryUpTo(m0, m, root, pdpt, pd, gb, entry)
    requires m' == PutLe(m, pd * 4096 + entry * 8, 8, gb * 0x4000_0000 + entry * 0x20_0000 + 0x87)
    ensures Tree(m', tables, root)
    ensures DirectoryUpTo(m0, m', root, pdpt, pd, gb, entry + 1)
  {
    StoredEntry(m, m', pd, entry, gb * 0x4000_0000 + entry * 0x20_0000 + 0x87);
    HugeEntry(gb, entry);
    assert SameEntry(m, m', root, 0) && SameEntry(m, m', pdpt, gb);
    forall f, k: nat | f in tables && k < 512 ensures EntryOk(m', tables, f, k) {
      assert EntryOk(m, tables, f, k);
      assert (f == pd && k == entry) || SameEntry(m, m', f, k);
    }
    forall k: nat | entry < k < 512 ensures Entry(m', pd, k) == 0 { assert SameEntry(m, m', pd, k); }
    forall g: nat | g < MAX_PAGES && g != pd ensures FrameKept(m0, m', g) {
      assert FrameKept(m0, m, g) && FrameKept(m, m', g);
    }
    IdentityStep(m, m', tables, root, pdpt, pd, gb, entry);
  }

  lemma IdentityStep(m: seq<Byte>, m': seq<Byte>, tables: Tables, root: int, pdpt: int, pd: int, gb: nat, entry: nat)
    requires Tree(m, tables, root) && gb < 4 && entry < 512
    requires pd in tables && pdpt in tables && tables[pd] == Node(2, gb)
    requires KeptExcept(m, m', tables, pd, entry)
    requires Entry(m', root, 0) == FrameAddr(pdpt) + 7 && Entry(m', pdpt, gb) == FrameAddr(pd) + 7
    requires Entry(m', pd, entry) == gb * 0x4000_0000 + entry * 0x20_0000 + 0x87
    requires Identity(m, root, gb * 0x4_0000 + entry * 512)
    ensures Identity(m', root, gb * 0x4_0000 + (entry + 1) * 512)
  {
    forall vp: nat | vp < VIRTUAL_PAGES
      ensures Translate(m', root, vp) ==
              if vp < gb * 0x4_0000 + (entry + 1) * 512 then Some(Mapping(vp * 4096, 7)) else None
    {
      if vp / 512 == gb * 512 + entry {
        IdentityWalk(m', root, pdpt, pd, gb, entry, vp);
      } else {
        assert Up(vp, 1) == vp / 512;
        WriteOffPath(m, m', tables, root, pd, entry, vp);
        assert Translate(m', root, vp) == Translate(m, root, vp);
      }
    }
  }

  lemma HugeEntry(gb: nat, entry: nat)
    requires gb < 4 && entry < 512
    ensures var e := gb * 0x4000_0000 + entry * 0x20_0000 + 0x87;
            Present(e) && Huge(e) && e % 0x20_0000 == 0x87 && e % 128 == 7
  {
    var k := gb * 512 + entry;
    DivModOf(k, 0x20_0000, 0x87);
    DivModOf(k * 0x4000 + 1, 128, 7);
    DivModOf(k * 0x10_0000 + 0x43, 2, 1);
    DivModOf(k * 0x2000, 2, 1);
  }

  lemma IdentityIndices(gb: nat, entry: nat, vp: nat)
    requires gb < 4 && entry < 512 && vp / 512 == gb * 512 + entry
    ensures Index(vp, 4) == 0 && Index(vp, 3) == gb && Index(vp, 2) == entry
  {
    assert Up(vp, 1) == vp / 512;
    assert Up(vp, 2) == gb;
    assert Up(vp, 3) == 0;
  }

  lemma IdentityWalk(m: seq<Byte>, root: nat, pdpt: nat, pd: nat, gb: nat, entry: nat, vp: nat)
    requires gb < 4 && entry < 512 && vp / 512 == gb * 512 + entry && pdpt < MAX_PAGES && pd < MAX_PAGES
    requires Entry(m, root, 0) == FrameAddr(pdpt) + 7 && Entry(m, pdpt, gb) == FrameAddr(pd) + 7
    requires Entry(m, pd, entry) == gb * 0x4000_0000 + entry * 0x20_0000 + 0x87
    ensures Translate(m, root, vp) == Some(Mapping(vp * 4096, 7))
  {
    IdentityIndices(gb, entry, vp);
    TwoTablesDown(m, root, LEVELS, pdpt, pd, vp);
    HugeWalk(m, pd, gb, entry, vp);
    PageAligned(vp);
    DecodeLeaf(vp * 4096, 7);
  }

  lemma TwoTablesDown(m: seq<Byte>, f: nat, level: nat, g: nat, h: nat, vp: nat)
    requires level > 2 && g < MAX_PAGES && h < MAX_PAGES
    requires Entry(m, f, Index(vp, level)) == FrameAddr(g) + 7
    requires Entry(m, g, Index(vp, level - 1)) == FrameAddr(h) + 7
    ensures Walk(m, f, level, vp) == Walk(m, h, level - 2, vp)
  {
    WalkStep(m, f, level, vp, g);
    WalkStep(m, g, level - 1, vp, h);
  }

  lemma HugeWalk(m: seq<Byte>, pd: nat, gb: nat, entry: nat, vp: nat)
    requires gb < 4 && entry < 512 && vp / 512 == gb * 512 + entry && entry == Index(vp, 2)
    requires Entry(m, pd, entry) == gb * 0x4000_0000 + entry * 0x20_0000 + 0x87
    ensures Walk(m, pd, 2, vp) == Some(vp * 4096 + 7)
  {
    HugeEntry(gb, entry);
    HugeLeaf(gb, entry, vp);
  }

  lemma PageAligned(n: nat)
    ensures n * 4096 % 4096 == 0
  {
  }

  lemma DecodeLeaf(base: nat, flags: nat)
    requires base % 4096 == 0 && flags < 4096
    ensures Decode(Some(base + flags)) == if Present(flags) then Some(Mapping(base, flags)) else None
  {
    LeafParts(base / 4096, base, flags);
  }

  lemma LeafParts(q: nat, base: nat, flags: nat)
    requires base == q * 4096 && flags < 4096
    ensures (base + flags) % 4096 == flags && (base + flags) % 2 == flags % 2
  {
    DivModOf(q, 4096, flags);
    DivModOf(q * 2048 + flags / 2, 2, flags % 2);
  }

  lemma HugeLeaf(gb: nat, entry: nat, vp: nat)
    requires gb < 4 && entry < 512 && vp / 512 == gb * 512 + entry
    ensures var e := gb * 0x4000_0000 + entry * 0x20_0000 + 0x87;
            e - e % 0x20_0000 + (vp % 512) * 4096 + e % 128 == vp * 4096 + 7
  {
    HugeEntry(gb, entry);
  }

  lemma WalkStep(m: seq<Byte>, f: nat, level: nat, vp: nat, t: nat)
    requires level > 1 && t < MAX_PAGES && Entry(m, f, Index(vp, level)) == FrameAddr(t) + 7
    ensures Walk(m, f, level, vp) == Walk(m, t, level - 1, vp)
  {
    TableEntry(t);
  }

  lemma {:induction false} AllClear(bm: seq<Byte>, n: nat)
    requires forall f: nat :: !BitAt(bm, f)
    ensures ClearBits(bm, n) == n
  {
    if n > 0 { AllClear(bm, n - 1); }
  }

  const ADDRESSES: nat := 0x1_0000_0000_0000_0000

  /** The four shifts and masks of `map_page` are the walk's indices. */
  lemma IndicesOfAddress(virt: nat)
    ensures Index(PageOf(virt), 4) == (virt / 0x80_0000_0000) % 512
    ensures Index(PageOf(virt), 3) == (virt / 0x4000_0000) % 512
    ensures Index(PageOf(virt), 2) == (virt / 0x20_0000) % 512
    ensures Index(PageOf(virt), 1) == (virt / 4096) % 512
  {
    var vp, q := PageOf(virt), virt / 4096;
    MaskedShift(q);
    assert Up(vp, 1) == (q / 512) % 0x800_0000;
    assert Up(vp, 2) == Up(vp, 1) / 512 == (q / 512 / 512) % 0x4_0000;
    assert Up(vp, 3) == Up(vp, 2) / 512 == (q / 512 / 512 / 512) % 512;
    ShiftDiv(virt);
  }

  lemma LeafIndex(virt: nat)
    ensures Index(PageOf(virt), 1) == (virt / 4096) % 512
  {
  }

  /** `(phys & ~0xFFF) | flags` */
  function Leaf(phys: nat, flags: nat): nat {
    phys / 4096 * 4096 + flags
  }

  lemma LeafValue(phys: nat, flags: nat)
    requires phys < ADDRESSES && flags < 4096
    ensures Leaf(phys, flags) < ADDRESSES
  {
  }

  lemma MaskedShift(q: nat)
    ensures (q % 0x10_0000_0000) / 512 == (q / 512) % 0x800_0000 && (q % 0x10_0000_0000) % 512 == q % 512
    ensures (q / 512 % 0x800_0000) / 512 == (q / 512 / 512) % 0x4_0000 && (q / 512 % 0x800_0000) % 512 == q / 512 % 512
    ensures (q / 512 / 512 % 0x4_0000) / 512 == (q / 512 / 512 / 512) % 512
    ensures (q / 512 / 512 % 0x4_0000) % 512 == q / 512 / 512 % 512
  {
    Shift36(q, q / 0x10_0000_0000, q % 0x10_0000_0000);
    Shift27(q / 512, q / 512 / 0x800_0000, q / 512 % 0x800_0000);
    Shift18(q / 512 / 512, q / 512 / 512 / 0x4_0000, q / 512 / 512 % 0x4_0000);
  }

  lemma Shift36(q: nat, a: nat, r: nat)
    requires q == a * 0x10_0000_0000 + r && r < 0x10_0000_0000
    ensures q / 512 == a * 0x800_0000 + r / 512 && (q / 512) % 0x800_0000 == r / 512 && q % 512 == r % 512
  {
  }

  lemma Shift27(q: nat, a: nat, r: nat)
    requires q == a * 0x800_0000 + r && r < 0x800_0000
    ensures q / 512 == a * 0x4_0000 + r / 512 && (q / 512) % 0x4_0000 == r / 512 && q % 512 == r % 512
  {
  }

  lemma Shift18(q: nat, a: nat, r: nat)
    requires q == a * 0x4_0000 + r && r < 0x4_0000
    ensures q / 512 == a * 512 + r / 512 && (q / 512) % 512 == r / 512 && q % 512 == r % 512
  {
  }

  lemma ShiftDiv(virt: nat)
    ensures virt / 4096 / 512 == virt / 0x20_0000
    ensures virt / 4096 / 512 / 512 == virt / 0x4000_0000
    ensures virt / 4096 / 512 / 512 / 512 == virt / 0x80_0000_0000
  {
  }

  lemma ExtendedTrans(m0: seq<Byte>, bm0: seq<Byte>, t0: Tables, m1: seq<Byte>, bm1: seq<Byte>, t1: Tables,
                      m2: seq<Byte>, bm2: seq<Byte>, t2: Tables, root: nat)
    requires Extended(m0, bm0, t0, m1, bm1, t1, root) && Extended(m1, bm1, t1, m2, bm2, t2, root)
    ensures Extended(m0, bm0, t0, m2, bm2, t2, root)
  {
    forall f: nat | f < MAX_PAGES && BitAt(bm0, f) && f !in t0 ensures FrameKept(m0, m2, f) {
      assert FrameKept(m0, m1, f) && FrameKept(m1, m2, f);
    }
  }

  lemma LeafStored(m: seq<Byte>, m': seq<Byte>, tables: Tables, root: int, pt: int, k: nat, v: nat, vp: nat)
    requires Tree(m, tables, root) && pt in tables && vp < VIRTUAL_PAGES && v < ADDRESSES
    requires tables[pt] == Node(1, Up(vp, 1)) && k == Index(vp, 1) && TableAt(m, root, LEVELS, 1, vp) == Some(pt)
    requires m' == PutLe(m, pt * 4096 + k * 8, 8, v)
    ensures Tree(m', tables, root) && OthersKept(m, m', pt)
    ensures Walk(m', root, LEVELS, vp) == Some(v) && TableAt(m', root, LEVELS, 1, vp) == Some(pt)
    ensures forall p: nat :: p < VIRTUAL_PAGES && p != vp ==> Walk(m', root, LEVELS, p) == Walk(m, root, LEVELS, p)
  {
    StoredEntry(m, m', pt, k, v);
    forall f, j: nat | f in tables && j < 512 ensures EntryOk(m', tables, f, j) {
      assert EntryOk(m, tables, f, j) && (f == pt || SameEntry(m, m', f, j));
    }
    UpOfPage(vp);
    TableAtSame(m, m', tables, root, root, LEVELS, 1, vp);
    WalkVia(m', root, LEVELS, 1, vp);
    assert vp == Up(vp, 1) * 512 + k;
    forall p: nat | p < VIRTUAL_PAGES && p != vp ensures Walk(m', root, LEVELS, p) == Walk(m, root, LEVELS, p) {
      WriteOffPath(m, m', tables, root, pt, k, p);
    }
  }

  lemma LeafEffect(m0: seq<Byte>, bm0: seq<Byte>, tables0: Tables, m: seq<Byte>, bm: seq<Byte>, tables: Tables,
                   m': seq<Byte>, root: nat, pt: int, vp: nat)
    requires Extended(m0, bm0, tables0, m, bm, tables, root)
    requires 0 <= pt && pt in tables && OthersKept(m, m', pt)
    requires forall p: nat :: p < VIRTUAL_PAGES && p != vp ==> Walk(m', root, LEVELS, p) == Walk(m, root, LEVELS, p)
    ensures Remapped(m0, bm0, tables0, m', bm, tables, root, {vp})
  {
    forall f: nat | f < MAX_PAGES && BitAt(bm0, f) && f !in tables0 ensures FrameKept(m0, m', f) {
      assert FrameKept(m0, m, f) && FrameKept(m, m', f);
    }
    forall p: nat | p < VIRTUAL_PAGES && p !in {vp} ensures Translate(m', root, p) == Translate(m0, root, p) {
      assert Translate(m, root, p) == Translate(m0, root, p);
    }
  }

  /** The `i`th page of a run from `virt`. */
  function RunPage(virt: nat, i: nat): nat {
    PageOf(virt + i * 4096)
  }

  /** The `i`th frame address of a run from `phys`. */
  function RunFrame(phys: nat, i: nat): nat {
    Leaf(phys + i * 4096, 0)
  }

  /** The virtual pages of a run of `n` from `virt`. */
  ghost function RunPages(virt: nat, n: nat): set<nat> {
    set i | 0 <= i < n :: RunPage(virt, i)
  }

  /** Every page of the run translates to its frame, with the user flags. */
  ghost predicate MapsRun(m: seq<Byte>, root: nat, virt: nat, phys: nat, n: nat) {
    forall i: nat :: i < n ==> Translate(m, root, RunPage(virt, i)) == Some(Mapping(RunFrame(phys, i), 7))
  }

  lemma RemappedTrans(m0: seq<Byte>, bm0: seq<Byte>, t0: Tables, m1: seq<Byte>, bm1: seq<Byte>, t1: Tables,
                      m2: seq<Byte>, bm2: seq<Byte>, t2: Tables, root: nat, p1: set<nat>, p2: set<nat>, p: set<nat>)
    requires Remapped(m0, bm0, t0, m1, bm1, t1, root, p1) && Remapped(m1, bm1, t1, m2, bm2, t2, root, p2)
    requires p1 + p2 <= p
    ensures Remapped(m0, bm0, t0, m2, bm2, t2, root, p)
  {
    forall f: nat | f < MAX_PAGES && BitAt(bm0, f) && f !in t0 ensures FrameKept(m0, m2, f) {
      assert FrameKept(m0, m1, f) && FrameKept(m1, m2, f);
    }
  }

  lemma RunStart(m: seq<Byte>, bm: seq<Byte>, tables: Tables, root: nat, virt: nat, phys: nat)
    ensures MapsRun(m, root, virt, phys, 0) && Remapped(m, bm, tables, m, bm, tables, root, RunPages(virt, 0))
  {
  }

  /** One more page of a run. */
  lemma RunAdvance(m0: seq<Byte>, bm0: seq<Byte>, t0: Tables, m1: seq<Byte>, bm1: seq<Byte>, t1: Tables,
                   m2: seq<Byte>, bm2: seq<Byte>, t2: Tables, root: nat, virt: nat, phys: nat, i: nat)
    requires i < VIRTUAL_PAGES && MapsRun(m1, root, virt, phys, i)
    requires Remapped(m0, bm0, t0, m1, bm1, t1, root, RunPages(virt, i))
    requires Remapped(m1, bm1, t1, m2, bm2, t2, root, {RunPage(virt, i)})
    requires Translate(m2, root, RunPage(virt, i)) == Some(Mapping(RunFrame(phys, i), 7))
    ensures Remapped(m0, bm0, t0, m2, bm2, t2, root, RunPages(virt, i + 1)) && MapsRun(m2, root, virt, phys, i + 1)
  {
    hide Translate, MapsRun, DataKept, Grown, RunPage, RunFrame;
    RemappedTrans(m0, bm0, t0, m1, bm1, t1, m2, bm2, t2, root,
                  RunPages(virt, i), {RunPage(virt, i)}, RunPages(virt, i + 1));
    RunStep(m1, m2, root, virt, phys, i);
  }

  lemma RunPagesMore(virt: nat, i: nat, n: nat)
    requires i <= n
    ensures RunPages(virt, i) + {} <= RunPages(virt, n)
  {
  }

  lemma RunPagesDistinct(virt: nat, i: nat, j: nat)
    requires i < j < VIRTUAL_PAGES
    ensures RunPage(virt, i) != RunPage(virt, j)
  {
    assert (virt + i * 4096) / 4096 == virt / 4096 + i;
    assert (virt + j * 4096) / 4096 == virt / 4096 + j;
  }

  /** Mapping the first `n` pages of a run leaves the pool in view. */
  ghost predicate RunKeepsPool(virt: nat, phys: nat, n: nat) {
    forall i: nat :: i < n ==> KeepsPool(RunPage(virt, i), RunFrame(phys, i))
  }

  lemma IdentitySeen(m: seq<Byte>, root: nat, n: nat)
    requires Identity(m, root, n) && n >= 0xA000
    ensures PoolSeen(m, root)
  {
    hide Translate;
    forall vp: nat | PoolPage(vp) ensures SelfMapped(m, root, vp) {
      assert Translate(m, root, vp) == Some(Mapping(vp * 4096, 7));
    }
  }

  /** A new leaf entry keeps the pool in view exactly when its page is none of the pool's or gets its own frame. */
  lemma LeafSeen(m: seq<Byte>, m': seq<Byte>, root: nat, vp: nat, phys: nat, flags: nat)
    requires PoolSeen(m, root) && vp < VIRTUAL_PAGES && flags < 4096
    requires Walk(m', root, LEVELS, vp) == Some(Leaf(phys, flags))
    requires forall p: nat :: p < VIRTUAL_PAGES && p != vp ==> Translate(m', root, p) == Translate(m, root, p)
    ensures PoolSeen(m', root) <==> !PoolPage(vp) || (Present(flags) && phys / 4096 == vp)
  {
    hide Walk, PoolSeen;
    LeafDecodes(phys, flags);
    OnePageSeen(m, m', root, vp);
  }

  /** Mapping the next page of a run keeps the pages mapped before it. */
  lemma RunStep(m: seq<Byte>, m': seq<Byte>, root: nat, virt: nat, phys: nat, i: nat)
    requires i < VIRTUAL_PAGES && MapsRun(m, root, virt, phys, i)
    requires Translate(m', root, RunPage(virt, i)) == Some(Mapping(RunFrame(phys, i), 7))
    requires forall p: nat :: p < VIRTUAL_PAGES && p != RunPage(virt, i) ==>
                                Translate(m', root, p) == Translate(m, root, p)
    ensures MapsRun(m', root, virt, phys, i + 1)
  {
    forall j: nat | j < i
      ensures Translate(m', root, RunPage(virt, j)) == Some(Mapping(RunFrame(phys, j), 7))
    {
      RunPagesDistinct(virt, j, i);
    }
  }

  lemma LeafDecodes(phys: nat, flags: nat)
    requires flags < 4096
    ensures Decode(Some(Leaf(phys, flags))) == if Present(flags) then Some(Mapping(Leaf(phys, 0), flags)) else None
  {
    PageAligned(phys / 4096);
    DecodeLeaf(Leaf(phys, 0), flags);
  }

  /** `vp` lost its translation and no other page did. */
  ghost predicate Dropped(m: seq<Byte>, m': seq<Byte>, root: nat, vp: nat) {
    && Translate(m', root, vp) == None
    && forall p: nat :: p < VIRTUAL_PAGES && p != vp ==> Translate(m', root, p) == Translate(m, root, p)
  }

  lemma FreedFrame(bm: seq<Byte>, bm': seq<Byte>, tables: Tables, phys: nat)
    requires phys % 4096 == 0 && AllUsed(bm, tables)
    requires forall f: nat :: BitAt(bm', f) <==>
                              BitAt(bm, f) && !(phys >= POOL_BASE && f == (phys - POOL_BASE) / 4096)
    ensures forall f: nat :: BitAt(bm', f) <==> BitAt(bm, f) && phys != FrameAddr(f)
    ensures AllUsed(bm', tables) <==> forall f :: f in tables ==> phys != FrameAddr(f)
  {
    forall f: nat ensures (phys >= POOL_BASE && f == (phys - POOL_BASE) / 4096) <==> phys == FrameAddr(f) {}
  }

  /** A walk that stops above a level does not reach the levels below. */
  lemma {:induction false} UpperNone(m: seq<Byte>, root: nat, stop: nat, vp: nat)
    requires 2 <= stop <= LEVELS && TableAt(m, root, LEVELS, stop - 1, vp) == None
    ensures TableAt(m, root, LEVELS, 1, vp) == None
  {
    ReachesUpward(m, root, LEVELS, 1, stop - 1, vp);
  }

  lemma {:induction false} ReachesUpward(m: seq<Byte>, f: nat, level: nat, low: nat, high: nat, vp: nat)
    requires 1 <= low <= high <= level
    ensures TableAt(m, f, level, low, vp).Some? ==> TableAt(m, f, level, high, vp).Some?
    decreases level
  {
    if level > high && TableAt(m, f, level, low, vp).Some? {
      ReachesUpward(m, Target(Entry(m, f, Index(vp, level))), level - 1, low, high, vp);
    }
  }

  /** A single frame can be had exactly when some frame is free. */
  lemma SingleFrameAvailable(bm: seq<Byte>)
    ensures (exists i: nat :: FreeRun(bm, i, 1)) <==> FreeFrames(bm) > 0
  {
    ClearBitsPositive(bm, MAX_PAGES);
    if FreeFrames(bm) > 0 {
      var j: nat :| j < MAX_PAGES && !BitAt(bm, j);
      assert FreeRun(bm, j, 1);
    }
    if i: nat :| FreeRun(bm, i, 1) {
      assert i < MAX_PAGES && !BitAt(bm, i);
    }
  }
}
