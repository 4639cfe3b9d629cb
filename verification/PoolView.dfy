/**
 How the kernel reaches its own page tables and frames. kernel/mm/memory.c
 uses their physical addresses as pointers, so every access goes through the
 tables themselves and meets the frame it means only while the pages of the
 pool translate to themselves.
 */
module PoolView {
  import opened Arith
  import opened Bytes
  import opened Frames
  import opened Options
  import opened PageTree

  /** The virtual pages with the numbers of the pool's frames: 32 MB up to 160 MB. */
  predicate PoolPage(vp: nat) { 0x2000 <= vp < 0xA000 }

  predicate SelfMapped(m: seq<Byte>, root: nat, vp: nat) {
    var hit := Translate(m, root, vp);
    hit.Some? && hit.value.phys == vp * 4096
  }

  /** Every page of the pool translates to its own address. */
  ghost predicate PoolSeen(m: seq<Byte>, root: nat) {
    forall vp: nat :: PoolPage(vp) ==> SelfMapped(m, root, vp)
  }

  /** Giving page `vp` the frame at `phys` leaves the pool in view. */
  predicate KeepsPool(vp: nat, phys: nat) {
    !PoolPage(vp) || phys == vp * 4096
  }

  /** Where an access to a virtual address ends up. */
  function PhysOf(m: seq<Byte>, root: nat, virt: nat): Option<nat> {
    match Translate(m, root, PageOf(virt))
    case None => None
    case Some(hit) => Some(hit.phys + virt % 4096)
  }

  /** What the kernel loads when it looks at entry `k` of the table in frame `f`, if that lies in the pool. */
  function KernelEntry(m: seq<Byte>, root: nat, f: nat, k: nat): Option<nat> {
    match PhysOf(m, root, FrameAddr(f) + k * 8)
    case Some(a) => if POOL_BASE <= a then Some(Le(m, a - POOL_BASE, 8)) else None
    case None => None
  }

  lemma PageParts(vp: nat, r: nat)
    requires vp < VIRTUAL_PAGES && r < 4096
    ensures PageOf(vp * 4096 + r) == vp && (vp * 4096 + r) % 4096 == r
  {
    DivModOf(vp, 4096, r);
  }

  /** The pool is in view exactly when every address in it, used as a pointer, means itself. */
  lemma PoolSeenIs(m: seq<Byte>, root: nat)
    ensures PoolSeen(m, root) <==>
            forall a: nat :: POOL_BASE <= a < POOL_BASE + POOL_BYTES ==> PhysOf(m, root, a) == Some(a)
  {
    hide Translate;
    if PoolSeen(m, root) {
      forall a: nat | POOL_BASE <= a < POOL_BASE + POOL_BYTES ensures PhysOf(m, root, a) == Some(a) {
        Parts(a, 4096);
        PageParts(a / 4096, a % 4096);
        assert SelfMapped(m, root, a / 4096);
      }
    } else {
      var vp: nat :| PoolPage(vp) && !SelfMapped(m, root, vp);
      PageParts(vp, 0);
      assert PhysOf(m, root, vp * 4096) != Some(vp * 4096);
    }
  }

  lemma EntryAddress(f: nat, k: nat)
    requires f < MAX_PAGES && k < 512
    ensures PageOf(FrameAddr(f) + k * 8) == 0x2000 + f && (FrameAddr(f) + k * 8) % 4096 == k * 8
  {
    PageParts(0x2000 + f, k * 8);
  }

  /** A load from a table goes to the frame its page translates to. */
  lemma KernelEntryAt(m: seq<Byte>, root: nat, f: nat, k: nat, g: nat)
    requires f < MAX_PAGES && k < 512
    requires Translate(m, root, 0x2000 + f).Some? && Translate(m, root, 0x2000 + f).value.phys == FrameAddr(g)
    ensures PhysOf(m, root, FrameAddr(f) + k * 8) == Some(FrameAddr(g) + k * 8)
    ensures KernelEntry(m, root, f, k) == Some(Entry(m, g, k))
  {
    hide Translate;
    EntryAddress(f, k);
  }

  /** With the pool in view the kernel finds in every table what is there. */
  lemma SeenEntries(m: seq<Byte>, root: nat, f: nat, k: nat)
    requires PoolSeen(m, root) && f < MAX_PAGES && k < 512
    ensures KernelEntry(m, root, f, k) == Some(Entry(m, f, k))
  {
    hide Translate;
    assert SelfMapped(m, root, 0x2000 + f);
    KernelEntryAt(m, root, f, k, f);
  }

  /** Every page translates as before. */
  ghost predicate SameWalks(m: seq<Byte>, m': seq<Byte>, root: nat) {
    forall p: nat :: p < VIRTUAL_PAGES ==> Translate(m', root, p) == Translate(m, root, p)
  }

  lemma SameTranslationsSeen(m: seq<Byte>, m': seq<Byte>, root: nat)
    requires SameWalks(m, m', root)
    ensures PoolSeen(m', root) <==> PoolSeen(m, root)
  {
    hide Translate;
    forall vp: nat | PoolPage(vp) ensures SelfMapped(m', root, vp) <==> SelfMapped(m, root, vp) {}
  }

  /** One page got a new translation: the pool stays in view exactly when that page is none of it or maps to itself. */
  lemma OnePageSeen(m: seq<Byte>, m': seq<Byte>, root: nat, vp: nat)
    requires PoolSeen(m, root) && vp < VIRTUAL_PAGES
    requires forall p: nat :: p < VIRTUAL_PAGES && p != vp ==> Translate(m', root, p) == Translate(m, root, p)
    ensures PoolSeen(m', root) <==> !PoolPage(vp) || SelfMapped(m', root, vp)
  {
    hide Translate;
    forall p: nat | PoolPage(p) && p != vp ensures SelfMapped(m', root, p) {
      assert SelfMapped(m, root, p);
    }
  }
}
