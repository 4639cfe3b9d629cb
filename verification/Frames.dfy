/**
 The physical frame allocator of kernel/mm/memory.c: a bitmap of 32768 frames
 over a 128 MB pool, searched with a 64-frame word skip and a jump past the
 first used frame of a candidate run.
 */
module Frames {
  import opened Bytes

  const MAX_PAGES: nat := 32768
  const POOL_BASE: nat := 0x200_0000
  const POOL_BYTES: nat := 0x800_0000
  const NULL: nat := 0

  /** The physical address of pool frame `f`. */
  function FrameAddr(f: nat): nat {
    POOL_BASE + f * 4096
  }

  /** `count` consecutive frames from `i` lie in the pool and are all free. */
  predicate FreeRun(bm: seq<Byte>, i: nat, count: nat) {
    i + count <= MAX_PAGES && forall j :: i <= j < i + count ==> !BitAt(bm, j)
  }

  /** What naive first-fit returns: the lowest free run of `count` frames. */
  predicate FirstFit(bm: seq<Byte>, i: nat, count: nat) {
    FreeRun(bm, i, count) && forall k: nat :: k < i ==> !FreeRun(bm, k, count)
  }

  /** `bm'` is `bm` with exactly the frames `i..i + count` marked used as well. */
  ghost predicate Marked(bm: seq<Byte>, bm': seq<Byte>, i: nat, count: nat) {
    |bm'| == |bm| && forall j: nat :: BitAt(bm', j) <==> i <= j < i + count || BitAt(bm, j)
  }

  /** `mem'` is `mem` with the frames `i..i + count` cleared and every other byte kept. */
  ghost predicate Cleared(mem: seq<Byte>, mem': seq<Byte>, i: nat, count: nat) {
    && |mem'| == |mem|
    && forall a :: 0 <= a < |mem| ==>
         mem'[a] == if i * 4096 <= a < (i + count) * 4096 then 0 else mem[a]
  }

  function FreeFrames(bm: seq<Byte>): nat {
    ClearBits(bm, MAX_PAGES)
  }

  /** A used frame rules out every run that contains it. */
  lemma UsedFrameBlocksRuns(bm: seq<Byte>, lo: nat, used: nat, count: nat)
    requires BitAt(bm, used) && lo <= used < lo + count
    ensures forall k: nat :: lo <= k <= used ==> !FreeRun(bm, k, count)
  {
  }

  /** A 64-bit bitmap word of all ones stands for 64 used frames, where no run can start. */
  lemma FullWord(bm: seq<Byte>, i: nat, count: nat)
    requires count > 0 && i % 64 == 0 && i / 8 + 8 <= |bm|
    requires Le(bm, i / 8, 8) == 0xFFFF_FFFF_FFFF_FFFF
    ensures forall j: nat :: i <= j < i + 64 ==> !FreeRun(bm, j, count)
  {
    FullWordValue();
    forall j: nat | i <= j < i + 64 ensures !FreeRun(bm, j, count) {
      FullWordBytes(bm, i / 8, 8, j / 8);
      FullByte(j % 8);
      UsedFrameBlocksRuns(bm, j, j, count);
    }
  }

  lemma FullWordValue()
    ensures Pow256(8) == 0x1_0000_0000_0000_0000
  {
  }

  lemma {:induction false} FullWordBytes(s: seq<Byte>, i: nat, n: nat, j: nat)
    requires i + n <= |s| && Le(s, i, n) == Pow256(n) - 1 && i <= j < i + n
    ensures s[j] == 255
    decreases n
  {
    LeRange(s, i + 1, n - 1);
    if j > i { FullWordBytes(s, i + 1, n - 1, j); }
  }

  class FrameAllocator {
    const bitmap: array<Byte>
    const pool: array<Byte>

    ghost predicate Valid() {
      bitmap.Length == MAX_PAGES / 8 && pool.Length == POOL_BYTES
    }

    /** The state `mm_init` starts from: every frame free. */
    constructor ()
      ensures Valid() && fresh(bitmap) && fresh(pool)
      ensures forall f: nat :: !BitAt(bitmap[..], f)
    {
      bitmap := new Byte[MAX_PAGES / 8](_ => 0);
      pool := new Byte[POOL_BYTES](_ => 0);
      new;
      forall f: nat ensures !BitAt(bitmap[..], f) { ZeroHasNoBits(f % 8); }
    }

    method AllocPages(count: nat) returns (addr: nat)
      requires Valid() && count <= MAX_PAGES
      modifies bitmap, pool
      ensures addr == NULL <==> count == 0 || forall i: nat :: !FreeRun(old(bitmap[..]), i, count)
      ensures addr == NULL ==> bitmap[..] == old(bitmap[..]) && pool[..] == old(pool[..])
      ensures addr != NULL ==>
                var f := (addr - POOL_BASE) / 4096;
                && 0 <= f && addr == FrameAddr(f)
                && FirstFit(old(bitmap[..]), f, count)
                && Marked(old(bitmap[..]), bitmap[..], f, count)
                && Cleared(old(pool[..]), pool[..], f, count)
                && FreeFrames(bitmap[..]) == FreeFrames(old(bitmap[..])) - count
    {
      if count == 0 { return NULL; }
      ghost var bm := bitmap[..];
      var i := 0;
      while i <= MAX_PAGES - count
        invariant 0 <= i
        invariant bitmap[..] == bm && pool[..] == old(pool[..])
        invariant forall k: nat :: k < i ==> !FreeRun(bm, k, count)
        decreases MAX_PAGES - i
      {
        if i % 64 == 0 && count <= 64 {
          i := SkipFullWords(i, count);
          assert bitmap[..] == bm;
          if i > MAX_PAGES - count { break; }
        }
        var found, next := ScanRun(i, count);
        if found {
          Take(i, count);
          ClearBitsAfterMarking(bm, bitmap[..], i, i + count, MAX_PAGES);
          return FrameAddr(i);
        }
        i := next;
      }
      assert forall k: nat :: FreeRun(bm, k, count) ==> k < i;
      return NULL;
    }

    /** The fast path: step over bitmap words that are all ones. */
    method SkipFullWords(from: nat, count: nat) returns (i: nat)
      requires Valid() && 0 < count && from % 64 == 0
      ensures from <= i
      ensures forall k: nat :: from <= k < i ==> !FreeRun(bitmap[..], k, count)
    {
      i := from;
      while i <= MAX_PAGES - 64 && Le(bitmap[..], i / 8, 8) == 0xFFFF_FFFF_FFFF_FFFF
        invariant i % 64 == 0 && from <= i
        invariant forall k: nat :: from <= k < i ==> !FreeRun(bitmap[..], k, count)
      {
        FullWord(bitmap[..], i, count);
        i := i + 64;
      }
    }

    /** Test the run at `i`; on a used frame, every start up to that frame is ruled out. */
    method ScanRun(i: nat, count: nat) returns (found: bool, next: nat)
      requires Valid() && i + count <= MAX_PAGES && 0 < count
      ensures found <==> FreeRun(bitmap[..], i, count)
      ensures i < next && (!found ==> forall k: nat :: i <= k < next ==> !FreeRun(bitmap[..], k, count))
    {
      found, next := true, i + 1;
      var j := 0;
      while j < count
        invariant 0 <= j <= count && found
        invariant forall x :: i <= x < i + j ==> !BitAt(bitmap[..], x)
      {
        if Bit(bitmap[(i + j) / 8], (i + j) % 8) {
          UsedFrameBlocksRuns(bitmap[..], i, i + j, count);
          return false, i + j + 1;
        }
        j := j + 1;
      }
    }

    /** The tail of `alloc_pages`: mark the run used and clear its memory. */
    method Take(i: nat, count: nat)
      requires Valid() && i + count <= MAX_PAGES
      modifies bitmap, pool
      ensures Marked(old(bitmap[..]), bitmap[..], i, count)
      ensures Cleared(old(pool[..]), pool[..], i, count)
    {
      for j := 0 to count
        invariant pool[..] == old(pool[..])
        invariant Marked(old(bitmap[..]), bitmap[..], i, j)
      {
        var x := i + j;
        ghost var bm := bitmap[..];
        assert Pow2(8) == 256;
        BitOpsInRange(bitmap[x / 8], x % 8, 8);
        bitmap[x / 8] := SetBit(bitmap[x / 8], x % 8);
        assert bitmap[..] == WithBit(bm, x);
      }
      ghost var bm := bitmap[..];
      for a := i * 4096 to (i + count) * 4096
        invariant bitmap[..] == bm
        invariant forall x :: 0 <= x < POOL_BYTES ==>
                                pool[x] == if i * 4096 <= x < a then 0 else old(pool[x])
      {
        pool[a] := 0;
      }
    }

    method FreePage(addr: nat)
      requires Valid()
      modifies bitmap
      ensures |bitmap[..]| == |old(bitmap[..])|
      ensures forall f: nat :: BitAt(bitmap[..], f) <==>
                               BitAt(old(bitmap[..]), f) && !(addr >= POOL_BASE && f == (addr - POOL_BASE) / 4096)
    {
      if addr < POOL_BASE { return; }
      var index := (addr - POOL_BASE) / 4096;
      if index < MAX_PAGES {
        ghost var bm := bitmap[..];
        assert Pow2(8) == 256;
        BitOpsInRange(bitmap[index / 8], index % 8, 8);
        bitmap[index / 8] := ClearBit(bitmap[index / 8], index % 8);
        assert bitmap[..] == WithoutBit(bm, index);
      }
    }

    method GetFreeBytes() returns (bytes: nat)
      requires Valid()
      ensures bytes == FreeFrames(bitmap[..]) * 4096
    {
      var free := 0;
      for i := 0 to MAX_PAGES
        invariant free == ClearBits(bitmap[..], i)
      {
        if !Bit(bitmap[i / 8], i % 8) {
          free := free + 1;
        }
      }
      return free * 4096;
    }
  }

  lemma {:induction false} ZeroHasNoBits(k: nat)
    ensures !Bit(0, k)
  {
    if k > 0 { ZeroHasNoBits(k - 1); }
  }
}
