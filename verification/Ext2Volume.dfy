/**
 An ext2 volume with 1024-byte blocks as kernel/fs/ext2/ext2.c sees it: the
 block and inode bitmaps with their free counts, and the inode tables.
 */
module Ext2Volume {
  import opened Arith
  import opened Bytes
  import opened Options

  const BLOCK_SIZE: nat := 1024

  /** The bytes of an inode that the driver copies. */
  const INODE_BYTES: nat := 128

  datatype Kind = BlockKind | InodeKind

  /** ext2_group_desc_t */
  datatype Group = Group(blockBitmap: nat, inodeBitmap: nat, inodeTable: nat, freeBlocks: nat, freeInodes: nat)

  /** The superblock fields that stay fixed. */
  datatype Super = Super(blocksPerGroup: nat, inodesPerGroup: nat, firstDataBlock: nat, inodeSize: nat)

  datatype Vol = Vol(sb: Super, disk: seq<seq<Byte>>, groups: seq<Group>, freeBlocks: int, freeInodes: int) {

    function PerGroup(kind: Kind): nat { if kind.BlockKind? then sb.blocksPerGroup else sb.inodesPerGroup }

    /** The number of the first block or inode. */
    function Base(kind: Kind): nat { if kind.BlockKind? then sb.firstDataBlock else 1 }

    function BitmapBlock(kind: Kind, g: nat): nat
      requires g < |groups|
    {
      if kind.BlockKind? then groups[g].blockBitmap else groups[g].inodeBitmap
    }

    function FreeCount(kind: Kind, g: nat): nat
      requires g < |groups|
    {
      if kind.BlockKind? then groups[g].freeBlocks else groups[g].freeInodes
    }

    /** The bitmap of a group as it is on disk; a block the device does not have reads as empty. */
    function Bitmap(kind: Kind, g: nat): seq<Byte>
      requires g < |groups|
    {
      var b := BitmapBlock(kind, g);
      if b < |disk| then disk[b] else []
    }

    function Total(kind: Kind): int { if kind.BlockKind? then freeBlocks else freeInodes }

    /** Blocks of one inode table. */
    function TableBlocks(): nat { (sb.inodesPerGroup * sb.inodeSize + 1023) / 1024 }
  }

  // Allocation

  /** The first clear bit from `i` on, or `n`. */
  function FirstClear(bm: seq<Byte>, n: nat, i: nat): (k: nat)
    requires i <= n
    ensures i <= k <= n
    ensures forall j: nat :: i <= j < k ==> BitAt(bm, j)
    ensures k < n ==> !BitAt(bm, k)
    decreases n - i
  {
    if i == n || !BitAt(bm, i) then i else FirstClear(bm, n, i + 1)
  }

  /** The group and bit the allocation loops settle on, scanning from group `g`. */
  function FindFree(v: Vol, kind: Kind, g: nat): (r: Option<(nat, nat)>)
    requires g <= |v.groups|
    ensures r.Some? ==> g <= r.value.0 < |v.groups| && r.value.1 < v.PerGroup(kind) &&
                        v.FreeCount(kind, r.value.0) > 0 && !BitAt(v.Bitmap(kind, r.value.0), r.value.1)
    decreases |v.groups| - g
  {
    if g == |v.groups| then None
    else
      var b := FirstClear(v.Bitmap(kind, g), v.PerGroup(kind), 0);
      if v.FreeCount(kind, g) > 0 && v.BitmapBlock(kind, g) < |v.disk| && b < v.PerGroup(kind) then Some((g, b))
      else FindFree(v, kind, g + 1)
  }

  function Number(v: Vol, kind: Kind, g: nat, b: nat): nat {
    g * v.PerGroup(kind) + b + v.Base(kind)
  }

  function TakeOne(kind: Kind, group: Group): Group
    requires if kind.BlockKind? then group.freeBlocks > 0 else group.freeInodes > 0
  {
    if kind.BlockKind? then group.(freeBlocks := group.freeBlocks - 1) else group.(freeInodes := group.freeInodes - 1)
  }

  /** The volume with bit `b` of group `g` taken and both counts lowered. */
  function Take(v: Vol, kind: Kind, g: nat, b: nat): Vol
    requires g < |v.groups| && v.FreeCount(kind, g) > 0
  {
    var block, bm := v.BitmapBlock(kind, g), v.Bitmap(kind, g);
    var disk := if block < |v.disk| && b / 8 < |bm| then v.disk[block := WithBit(bm, b)] else v.disk;
    var groups := v.groups[g := TakeOne(kind, v.groups[g])];
    if kind.BlockKind? then v.(disk := disk, groups := groups, freeBlocks := v.freeBlocks - 1)
    else v.(disk := disk, groups := groups, freeInodes := v.freeInodes - 1)
  }

  /** `ext2_alloc_block` and `ext2_alloc_inode`: the new volume and the number, zero when nothing is free. */
  function Alloc(v: Vol, kind: Kind): (Vol, nat) {
    match FindFree(v, kind, 0)
    case None => (v, 0)
    case Some((g, b)) => (Take(v, kind, g, b), Number(v, kind, g, b))
  }

  // The invariant of a mounted volume

  ghost predicate Sized(v: Vol) {
    && (forall b :: 0 <= b < |v.disk| ==> |v.disk[b]| == BLOCK_SIZE)
    && 0 < v.sb.blocksPerGroup <= 8192 && 0 < v.sb.inodesPerGroup <= 8192 && v.sb.firstDataBlock > 0
    && v.sb.inodeSize in {128, 256, 512, 1024}
  }

  predicate InTable(v: Vol, g: nat, b: nat)
    requires g < |v.groups|
  {
    v.groups[g].inodeTable <= b < v.groups[g].inodeTable + v.TableBlocks()
  }

  /** Bitmaps and inode tables lie on the disk and share no block. */
  ghost predicate Laid(v: Vol) {
    && (forall kind, g: nat :: g < |v.groups| ==> v.BitmapBlock(kind, g) < |v.disk|)
    && (forall kind, g: nat, kind', g': nat :: g < |v.groups| && g' < |v.groups| && (kind != kind' || g != g') ==>
                                                 v.BitmapBlock(kind, g) != v.BitmapBlock(kind', g'))
    && (forall g: nat :: g < |v.groups| ==> v.groups[g].inodeTable + v.TableBlocks() <= |v.disk|)
    && (forall kind, g: nat, g': nat :: g < |v.groups| && g' < |v.groups| ==> !InTable(v, g, v.BitmapBlock(kind, g')))
    && (forall g: nat, g': nat :: g < g' < |v.groups| ==>
                                    v.groups[g].inodeTable + v.TableBlocks() <= v.groups[g'].inodeTable ||
                                    v.groups[g'].inodeTable + v.TableBlocks() <= v.groups[g].inodeTable)
  }

  function SumFree(v: Vol, kind: Kind, n: nat): nat
    requires n <= |v.groups|
  {
    if n == 0 then 0 else SumFree(v, kind, n - 1) + v.FreeCount(kind, n - 1)
  }

  /** Each group's free count is the number of clear bits of its bitmap, and the superblock's is their sum. */
  ghost predicate Counted(v: Vol) {
    && (forall kind, g: nat :: g < |v.groups| ==>
        v.FreeCount(kind, g) == ClearBits(v.Bitmap(kind, g), v.PerGroup(kind)))
    && (forall kind :: v.Total(kind) == SumFree(v, kind, |v.groups|))
  }

  ghost predicate Mounted(v: Vol) {
    Sized(v) && Laid(v) && Counted(v)
  }

  /** The group of block or inode number `n`, and its bit there. */
  function GroupOf(v: Vol, kind: Kind, n: nat): nat
    requires v.PerGroup(kind) > 0 && v.Base(kind) <= n
  {
    (n - v.Base(kind)) / v.PerGroup(kind)
  }

  function BitOf(v: Vol, kind: Kind, n: nat): nat
    requires v.PerGroup(kind) > 0 && v.Base(kind) <= n
  {
    (n - v.Base(kind)) % v.PerGroup(kind)
  }

  /** Block or inode number `n` is marked in its group's bitmap. */
  predicate Used(v: Vol, kind: Kind, n: nat)
    requires v.PerGroup(kind) > 0
  {
    && v.Base(kind) <= n && GroupOf(v, kind, n) < |v.groups|
    && BitAt(v.Bitmap(kind, GroupOf(v, kind, n)), BitOf(v, kind, n))
  }

  /** Numbers and (group, bit) pairs correspond one to one. */
  lemma NumberParts(v: Vol, kind: Kind, g: nat, b: nat, n: nat)
    requires b < v.PerGroup(kind) && v.Base(kind) <= n
    ensures (GroupOf(v, kind, n) == g && BitOf(v, kind, n) == b) <==> n == Number(v, kind, g, b)
  {
    DivModOf(g, v.PerGroup(kind), b);
    var i, d := n - v.Base(kind), v.PerGroup(kind);
    assert i == (i / d) * d + i % d;
  }

  /** Nothing is found exactly when no group from `g` on has anything free. */
  lemma {:induction false} FindFreeNone(v: Vol, kind: Kind, g: nat)
    requires Laid(v) && Counted(v) && g <= |v.groups|
    ensures FindFree(v, kind, g) == None <==> forall h: nat :: g <= h < |v.groups| ==> v.FreeCount(kind, h) == 0
    decreases |v.groups| - g
  {
    if g < |v.groups| {
      ClearBitsPositive(v.Bitmap(kind, g), v.PerGroup(kind));
      FindFreeNone(v, kind, g + 1);
    }
  }

  lemma {:induction false} SumFreeUpdate(v: Vol, kind: Kind, g: nat, group: Group, n: nat)
    requires n <= |v.groups| && g < |v.groups|
    ensures var v' := v.(groups := v.groups[g := group]);
            SumFree(v', kind, n) ==
            SumFree(v, kind, n) + if g < n then v'.FreeCount(kind, g) - v.FreeCount(kind, g) else 0
  {
    if n > 0 { SumFreeUpdate(v, kind, g, group, n - 1); }
  }

  lemma {:induction false} SumFreeSame(v: Vol, w: Vol, kind: Kind, n: nat)
    requires w.groups == v.groups && n <= |v.groups|
    ensures SumFree(w, kind, n) == SumFree(v, kind, n)
  {
    if n > 0 { SumFreeSame(v, w, kind, n - 1); }
  }

  /** Taking a clear bit changes one bitmap and no other block. */
  lemma TakeBitmaps(v: Vol, kind: Kind, g: nat, b: nat)
    requires Sized(v) && Laid(v) && g < |v.groups| && v.FreeCount(kind, g) > 0 && b < v.PerGroup(kind)
    ensures var w := Take(v, kind, g, b);
            && Sized(w) && Laid(w) && w.sb == v.sb && |w.groups| == |v.groups| && |w.disk| == |v.disk|
            && w.Bitmap(kind, g) == WithBit(v.Bitmap(kind, g), b)
            && (forall kind', h: nat :: h < |v.groups| && (kind' != kind || h != g) ==>
                w.Bitmap(kind', h) == v.Bitmap(kind', h))
            && (forall x :: 0 <= x < |v.disk| && x != v.BitmapBlock(kind, g) ==> w.disk[x] == v.disk[x])
            && (forall kind', h: nat :: h < |v.groups| ==> w.BitmapBlock(kind', h) == v.BitmapBlock(kind', h))
            && (forall h: nat :: h < |v.groups| ==> w.groups[h].inodeTable == v.groups[h].inodeTable)
  {
    var w := Take(v, kind, g, b);
    assert v.BitmapBlock(kind, g) < |v.disk|;
    assert |v.disk[v.BitmapBlock(kind, g)]| == BLOCK_SIZE;
    assert w.TableBlocks() == v.TableBlocks();
    forall kind', h: nat | h < |v.groups| ensures w.BitmapBlock(kind', h) == v.BitmapBlock(kind', h) {}
    forall h: nat, h': nat, kind' | h < |v.groups| && h' < |v.groups| ensures !InTable(w, h, w.BitmapBlock(kind', h')) {
      assert !InTable(v, h, v.BitmapBlock(kind', h'));
    }
  }

  lemma TakeKeepsMounted(v: Vol, kind: Kind, g: nat, b: nat)
    requires Mounted(v) && g < |v.groups| && v.FreeCount(kind, g) > 0
    requires b < v.PerGroup(kind) && !BitAt(v.Bitmap(kind, g), b)
    ensures Mounted(Take(v, kind, g, b))
  {
    hide ClearBits, BitAt, InTable;
    var w := Take(v, kind, g, b);
    TakeBitmaps(v, kind, g, b);
    ClearBitsAfterMarking(v.Bitmap(kind, g), w.Bitmap(kind, g), b, b + 1, v.PerGroup(kind));
    forall k ensures w.Total(k) == SumFree(w, k, |w.groups|) {
      var v' := v.(groups := w.groups);
      SumFreeUpdate(v, k, g, w.groups[g], |v.groups|);
      SumFreeSame(v', w, k, |w.groups|);
    }
  }

  lemma UsedAt(v: Vol, w: Vol, kind: Kind, g: nat, b: nat, m: nat)
    requires w.sb == v.sb && |w.groups| == |v.groups| && g < |v.groups| && b < v.PerGroup(kind)
    requires forall j: nat :: BitAt(w.Bitmap(kind, g), j) <==> j == b || BitAt(v.Bitmap(kind, g), j)
    requires forall h: nat :: h < |v.groups| && h != g ==> w.Bitmap(kind, h) == v.Bitmap(kind, h)
    ensures Used(w, kind, m) <==> m == Number(v, kind, g, b) || Used(v, kind, m)
  {
    if m >= v.Base(kind) {
      NumberParts(v, kind, g, b, m);
      assert GroupOf(w, kind, m) == GroupOf(v, kind, m) && BitOf(w, kind, m) == BitOf(v, kind, m);
    }
  }

  lemma UsedOther(v: Vol, w: Vol, kind: Kind, m: nat)
    requires w.sb == v.sb && |w.groups| == |v.groups| && v.PerGroup(kind) > 0
    requires forall h: nat :: h < |v.groups| ==> w.Bitmap(kind, h) == v.Bitmap(kind, h)
    ensures Used(w, kind, m) <==> Used(v, kind, m)
  {
  }

  /** The numbers in use after an allocation are those before and the one returned. */
  lemma TakeUses(v: Vol, kind: Kind, g: nat, b: nat)
    requires Sized(v) && Laid(v) && g < |v.groups| && v.FreeCount(kind, g) > 0
    requires b < v.PerGroup(kind) && !BitAt(v.Bitmap(kind, g), b)
    ensures var w, n := Take(v, kind, g, b), Number(v, kind, g, b);
            && v.PerGroup(kind) > 0 && !Used(v, kind, n) && w.sb == v.sb
            && (forall m: nat :: Used(w, kind, m) <==> m == n || Used(v, kind, m))
            && (forall kind', m: nat :: kind' != kind ==> (Used(w, kind', m) <==> Used(v, kind', m)))
  {
    var w, n := Take(v, kind, g, b), Number(v, kind, g, b);
    TakeBitmaps(v, kind, g, b);
    NumberParts(v, kind, g, b, n);
    forall m: nat ensures Used(w, kind, m) <==> m == n || Used(v, kind, m) { UsedAt(v, w, kind, g, b, m); }
    forall kind', m: nat | kind' != kind ensures Used(w, kind', m) <==> Used(v, kind', m) { UsedOther(v, w, kind', m); }
  }

  /** What one allocation does: the number is new, both bitmaps and counts stay right, zero means full. */
  lemma AllocEffect(v: Vol, kind: Kind)
    requires Mounted(v)
    ensures var (w, n) := Alloc(v, kind);
            && Mounted(w) && w.sb == v.sb && |w.groups| == |v.groups|
            && (n == 0 <==> forall g: nat :: g < |v.groups| ==> v.FreeCount(kind, g) == 0)
            && (n == 0 ==> w == v)
            && (n != 0 ==> !Used(v, kind, n))
            && (forall m: nat :: m != 0 ==> (Used(w, kind, m) <==> m == n || Used(v, kind, m)))
            && (forall kind', m: nat :: kind' != kind ==> (Used(w, kind', m) <==> Used(v, kind', m)))
  {
    FindFreeNone(v, kind, 0);
    match FindFree(v, kind, 0)
    case None =>
    case Some((g, b)) =>
      TakeKeepsMounted(v, kind, g, b);
      TakeUses(v, kind, g, b);
  }

  /** A full group is one whose bitmap has no clear bit, so zero means that every number is in use. */
  lemma ZeroMeansAllUsed(v: Vol, kind: Kind, n: nat)
    requires Mounted(v) && Alloc(v, kind).1 == 0
    requires v.Base(kind) <= n < v.Base(kind) + |v.groups| * v.PerGroup(kind)
    ensures Used(v, kind, n)
  {
    AllocEffect(v, kind);
    GroupInRange(n - v.Base(kind), v.PerGroup(kind), |v.groups|);
    ClearBitsPositive(v.Bitmap(kind, GroupOf(v, kind, n)), v.PerGroup(kind));
  }

  /** The lowest number that is not in use is the one returned. */
  lemma AllocLowest(v: Vol, kind: Kind, m: nat)
    requires Mounted(v) && v.Base(kind) <= m < Alloc(v, kind).1
    ensures Used(v, kind, m)
  {
    hide Laid, Counted, Sized, FindFree, Take;
    assert v.PerGroup(kind) > 0 by { PerGroupPositive(v, kind); }
    var (g, b) := FindFree(v, kind, 0).value;
    Preceding(m - v.Base(kind), g, b, v.PerGroup(kind));
    if GroupOf(v, kind, m) < g {
      SkippedFull(v, kind, 0, GroupOf(v, kind, m), BitOf(v, kind, m));
    } else {
      FoundFirst(v, kind, 0, BitOf(v, kind, m));
    }
  }

  lemma PerGroupPositive(v: Vol, kind: Kind)
    requires Sized(v)
    ensures v.PerGroup(kind) > 0
  {
  }

  lemma {:induction false} SkippedFull(v: Vol, kind: Kind, g: nat, h: nat, c: nat)
    requires Laid(v) && Counted(v) && g <= h < |v.groups| && c < v.PerGroup(kind)
    requires FindFree(v, kind, g).Some? && h < FindFree(v, kind, g).value.0
    ensures BitAt(v.Bitmap(kind, h), c)
    decreases |v.groups| - g
  {
    if g < h {
      SkippedFull(v, kind, g + 1, h, c);
    } else {
      ClearBitsPositive(v.Bitmap(kind, h), v.PerGroup(kind));
    }
  }

  lemma {:induction false} FoundFirst(v: Vol, kind: Kind, g: nat, c: nat)
    requires g <= |v.groups| && FindFree(v, kind, g).Some? && c < FindFree(v, kind, g).value.1
    ensures BitAt(v.Bitmap(kind, FindFree(v, kind, g).value.0), c)
    decreases |v.groups| - g
  {
    if FindFree(v, kind, g).value.0 > g { FoundFirst(v, kind, g + 1, c); }
  }

  /** Which bit of the disk says that a block is in use. */
  lemma BlockBit(v: Vol, g: nat, b: nat)
    requires g < |v.groups| && b < v.sb.blocksPerGroup && v.groups[g].blockBitmap < |v.disk|
    ensures Used(v, BlockKind, v.sb.firstDataBlock + g * v.sb.blocksPerGroup + b) <==>
            BitAt(v.disk[v.groups[g].blockBitmap], b)
  {
    DivModOf(g, v.sb.blocksPerGroup, b);
  }

  /** And an inode. */
  lemma InodeBit(v: Vol, g: nat, b: nat)
    requires g < |v.groups| && b < v.sb.inodesPerGroup && v.groups[g].inodeBitmap < |v.disk|
    ensures Used(v, InodeKind, 1 + g * v.sb.inodesPerGroup + b) <==> BitAt(v.disk[v.groups[g].inodeBitmap], b)
  {
    DivModOf(g, v.sb.inodesPerGroup, b);
  }

  /** Any run of allocations of either kind, and the numbers of one kind it returned. */
  function AllocRun(v: Vol, kinds: seq<Kind>): Vol
    decreases |kinds|
  {
    if kinds == [] then v else Alloc(AllocRun(v, kinds[..|kinds| - 1]), kinds[|kinds| - 1]).0
  }

  function Returned(v: Vol, kinds: seq<Kind>, kind: Kind): seq<nat>
    decreases |kinds|
  {
    if kinds == [] then []
    else
      var n := |kinds| - 1;
      var number := Alloc(AllocRun(v, kinds[..n]), kinds[n]).1;
      Returned(v, kinds[..n], kind) + if kinds[n] == kind && number != 0 then [number] else []
  }

  ghost predicate AllNew(v: Vol, kind: Kind, w: Vol, ns: seq<nat>)
    requires v.PerGroup(kind) > 0 && w.PerGroup(kind) > 0
  {
    && (forall i, j :: 0 <= i < j < |ns| ==> ns[i] != ns[j])
    && (forall i :: 0 <= i < |ns| ==> ns[i] != 0 && !Used(v, kind, ns[i]))
    && (forall m: nat :: m != 0 ==> (Used(w, kind, m) <==> m in ns || Used(v, kind, m)))
  }

  /** No number is ever returned twice, and none that was in use at the start. */
  lemma {:induction false} NeverTwice(v: Vol, kinds: seq<Kind>, kind: Kind)
    requires Mounted(v)
    ensures var w, ns := AllocRun(v, kinds), Returned(v, kinds, kind);
            Mounted(w) && w.sb == v.sb && AllNew(v, kind, w, ns)
    decreases |kinds|
  {
    if kinds != [] {
      var n := |kinds| - 1;
      NeverTwice(v, kinds[..n], kind);
      var u := AllocRun(v, kinds[..n]);
      AllocEffect(u, kinds[n]);
      var (w, number) := Alloc(u, kinds[n]);
      NewNumber(v, kind, u, w, Returned(v, kinds[..n], kind), if kinds[n] == kind then number else 0);
    }
  }

  lemma NewNumber(v: Vol, kind: Kind, u: Vol, w: Vol, ns: seq<nat>, number: nat)
    requires v.PerGroup(kind) > 0 && u.PerGroup(kind) > 0 && w.PerGroup(kind) > 0 && AllNew(v, kind, u, ns)
    requires number != 0 ==> !Used(u, kind, number)
    requires forall m: nat :: m != 0 ==> (Used(w, kind, m) <==> m == number || Used(u, kind, m))
    ensures AllNew(v, kind, w, ns + if number != 0 then [number] else [])
  {
    hide Used;
    if number == 0 {
      assert ns + [] == ns;
    } else {
      forall i | 0 <= i < |ns| ensures ns[i] != number { assert ns[i] in ns && Used(u, kind, ns[i]); }
      assert AllNew(v, kind, u, ns);
    }
  }

  // Inode tables

  /** `ino` has a place in some group's table. */
  predicate HasInode(v: Vol, ino: nat) {
    ino > 0 && v.sb.inodesPerGroup > 0 && (ino - 1) / v.sb.inodesPerGroup < |v.groups|
  }

  /** The byte offset of an inode in its group's table. */
  function InodeOffset(v: Vol, ino: nat): nat
    requires HasInode(v, ino)
  {
    (ino - 1) % v.sb.inodesPerGroup * v.sb.inodeSize
  }

  function InodeGroup(v: Vol, ino: nat): (g: nat)
    requires HasInode(v, ino)
    ensures g < |v.groups|
  {
    (ino - 1) / v.sb.inodesPerGroup
  }

  function InodeBlock(v: Vol, ino: nat): nat
    requires HasInode(v, ino)
  {
    v.groups[InodeGroup(v, ino)].inodeTable + InodeOffset(v, ino) / 1024
  }

  /** The block and byte offset of the inode lie on the disk. */
  predicate InodeOnDisk(v: Vol, ino: nat) {
    && HasInode(v, ino) && InodeBlock(v, ino) < |v.disk|
    && InodeOffset(v, ino) % 1024 + INODE_BYTES <= |v.disk[InodeBlock(v, ino)]|
  }

  function PutBytes(s: seq<Byte>, i: nat, bytes: seq<Byte>): (r: seq<Byte>)
    requires i + |bytes| <= |s|
    ensures |r| == |s| && r[i..i + |bytes|] == bytes
    ensures forall j :: 0 <= j < |s| && !(i <= j < i + |bytes|) ==> r[j] == s[j]
  {
    s[..i] + bytes + s[i + |bytes|..]
  }

  function ReadInode(v: Vol, ino: nat): Option<seq<Byte>> {
    if !InodeOnDisk(v, ino) then None
    else
      var at := InodeOffset(v, ino) % 1024;
      Some(v.disk[InodeBlock(v, ino)][at..at + INODE_BYTES])
  }

  function WriteInode(v: Vol, ino: nat, inode: seq<Byte>): Vol
    requires |inode| == INODE_BYTES
  {
    if !InodeOnDisk(v, ino) then v
    else
      var block := InodeBlock(v, ino);
      v.(disk := v.disk[block := PutBytes(v.disk[block], InodeOffset(v, ino) % 1024, inode)])
  }

  /** With `q` inodes to the block, inode `i` is slot `i % q` of block `i / q`. */
  lemma InodeSlot(size: nat, i: nat)
    requires size in {128, 256, 512, 1024}
    ensures var q := 1024 / size;
            q > 0 && q * size == 1024 && i * size / 1024 == i / q && i * size % 1024 == i % q * size
  {
    if size == 128 {
      assert i * 128 == 1024 * (i / 8) + 128 * (i % 8);
    } else if size == 256 {
      assert i * 256 == 1024 * (i / 4) + 256 * (i % 4);
    } else if size == 512 {
      assert i * 512 == 1024 * (i / 2) + 512 * (i % 2);
    } else {
    }
  }

  /** With `q` inodes to the block, inode `k * q + r` of group `g`, counted from one, is slot `r` of table block `k`. */
  lemma InodeAt(v: Vol, g: nat, k: nat, r: nat)
    requires Mounted(v) && g < |v.groups| && r < 1024 / v.sb.inodeSize
    requires k * (1024 / v.sb.inodeSize) + r < v.sb.inodesPerGroup && v.groups[g].inodeTable + k < |v.disk|
    ensures r * v.sb.inodeSize + 128 <= 1024
    ensures ReadInode(v, 1 + g * v.sb.inodesPerGroup + (k * (1024 / v.sb.inodeSize) + r)) ==
            Some(v.disk[v.groups[g].inodeTable + k][r * v.sb.inodeSize..r * v.sb.inodeSize + 128])
  {
    hide Laid, Counted;
    var size, q := v.sb.inodeSize, 1024 / v.sb.inodeSize;
    var i := k * q + r;
    DivModOf(g, v.sb.inodesPerGroup, i);
    DivModOf(k, q, r);
    InodeSlot(size, i);
    InodeSlots(size, r, r);
    SlotSpread(r, q - 1, size);
  }

  /** Equal-sized inodes of a power-of-two size never cross a block boundary or overlap. */
  lemma InodeSlots(size: nat, i: nat, j: nat)
    requires size in {128, 256, 512, 1024}
    ensures i * size % 1024 + 128 <= 1024
    ensures i != j && i * size / 1024 == j * size / 1024 ==>
              i * size % 1024 + 128 <= j * size % 1024 || j * size % 1024 + 128 <= i * size % 1024
  {
    var q := 1024 / size;
    InodeSlot(size, i);
    InodeSlot(size, j);
    SlotSpread(i % q, q - 1, size);
    if i != j && i / q == j / q {
      SamePlace(i, j, q);
      SlotSpread(i % q, j % q, size);
      SlotSpread(j % q, i % q, size);
    }
  }

  lemma SlotSpread(x: nat, y: nat, size: nat)
    requires size in {128, 256, 512, 1024}
    ensures x < y ==> x * size + size <= y * size
    ensures x <= y ==> x * size <= y * size
  {
    if size == 128 {
    } else if size == 256 {
    } else if size == 512 {
    } else {
    }
  }

  lemma InodeInTable(v: Vol, ino: nat)
    requires Sized(v) && Laid(v) && HasInode(v, ino)
    ensures InTable(v, InodeGroup(v, ino), InodeBlock(v, ino)) && InodeOnDisk(v, ino)
  {
    var idx, size, n := (ino - 1) % v.sb.inodesPerGroup, v.sb.inodeSize, v.sb.inodesPerGroup;
    InodeSlots(size, idx, idx);
    TableHolds(idx, n, size);
    assert v.groups[InodeGroup(v, ino)].inodeTable + v.TableBlocks() <= |v.disk|;
  }

  lemma TableHolds(idx: nat, n: nat, size: nat)
    requires idx < n && size in {128, 256, 512, 1024}
    ensures idx * size / 1024 < (n * size + 1023) / 1024
  {
    if size == 128 {
    } else if size == 256 {
    } else if size == 512 {
    } else {
    }
  }

  /** Different inodes occupy different bytes. */
  lemma InodesApart(v: Vol, ino: nat, ino': nat)
    requires Sized(v) && Laid(v) && HasInode(v, ino) && HasInode(v, ino') && ino != ino'
    ensures InodeBlock(v, ino) == InodeBlock(v, ino') ==>
              var a, b := InodeOffset(v, ino) % 1024, InodeOffset(v, ino') % 1024;
              a + INODE_BYTES <= b || b + INODE_BYTES <= a
  {
    InodeInTable(v, ino);
    InodeInTable(v, ino');
    var n := v.sb.inodesPerGroup;
    if InodeGroup(v, ino) == InodeGroup(v, ino') {
      SamePlace(ino - 1, ino' - 1, n);
      InodeSlots(v.sb.inodeSize, (ino - 1) % n, (ino' - 1) % n);
    }
  }

  /** Writing a block that is no bitmap keeps the volume mounted and every bitmap as it was. */
  lemma WriteBlockKeeps(v: Vol, x: nat, content: seq<Byte>)
    requires Mounted(v) && x < |v.disk| && |content| == BLOCK_SIZE
    requires forall kind, g: nat :: g < |v.groups| ==> v.BitmapBlock(kind, g) != x
    ensures var w := v.(disk := v.disk[x := content]);
            && Mounted(w)
            && (forall kind, g: nat :: g < |v.groups| ==> w.Bitmap(kind, g) == v.Bitmap(kind, g))
            && (forall kind, n: nat :: Used(w, kind, n) <==> Used(v, kind, n))
  {
    var w := v.(disk := v.disk[x := content]);
    assert w.TableBlocks() == v.TableBlocks();
    forall kind, g: nat | g < |v.groups|
      ensures w.Bitmap(kind, g) == v.Bitmap(kind, g) && w.BitmapBlock(kind, g) == v.BitmapBlock(kind, g) {}
    forall g: nat, g': nat, kind | g < |v.groups| && g' < |v.groups| ensures !InTable(w, g, w.BitmapBlock(kind, g')) {
      assert !InTable(v, g, v.BitmapBlock(kind, g'));
    }
    forall kind ensures w.Total(kind) == SumFree(w, kind, |w.groups|) { SumFreeSame(v, w, kind, |v.groups|); }
    forall kind, n: nat ensures Used(w, kind, n) <==> Used(v, kind, n) { UsedOther(v, w, kind, n); }
  }

  /** Writing an inode changes one block, in the inode tables. */
  lemma WriteInodeKeeps(v: Vol, ino: nat, inode: seq<Byte>)
    requires Mounted(v) && HasInode(v, ino) && |inode| == INODE_BYTES
    ensures var w := WriteInode(v, ino, inode);
            && Mounted(w) && w == v.(disk := w.disk) && |w.disk| == |v.disk|
            && (forall x :: 0 <= x < |v.disk| && x != InodeBlock(v, ino) ==> w.disk[x] == v.disk[x])
            && (forall kind, g: nat :: g < |v.groups| ==> w.Bitmap(kind, g) == v.Bitmap(kind, g))
            && (forall kind, n: nat :: Used(w, kind, n) <==> Used(v, kind, n))
  {
    InodeInTable(v, ino);
    var block := InodeBlock(v, ino);
    forall kind, g: nat | g < |v.groups| ensures v.BitmapBlock(kind, g) != block {
      assert !InTable(v, InodeGroup(v, ino), v.BitmapBlock(kind, g));
    }
    WriteBlockKeeps(v, block, PutBytes(v.disk[block], InodeOffset(v, ino) % 1024, inode));
  }

  /** An inode written reads back, and no other inode changes. */
  lemma InodeRoundTrip(v: Vol, ino: nat, inode: seq<Byte>)
    requires Mounted(v) && HasInode(v, ino) && |inode| == INODE_BYTES
    ensures var w := WriteInode(v, ino, inode);
            && ReadInode(w, ino) == Some(inode)
            && forall other: nat :: other != ino ==> ReadInode(w, other) == ReadInode(v, other)
  {
    var w := WriteInode(v, ino, inode);
    InodeInTable(v, ino);
    WriteInodeKeeps(v, ino, inode);
    InodeInTable(w, ino);
    forall other: nat | other != ino ensures ReadInode(w, other) == ReadInode(v, other) {
      if HasInode(v, other) { OtherInode(v, ino, inode, other); }
    }
  }

  lemma OtherInode(v: Vol, ino: nat, inode: seq<Byte>, other: nat)
    requires Sized(v) && Laid(v) && HasInode(v, ino) && HasInode(v, other) && other != ino && |inode| == INODE_BYTES
    ensures ReadInode(WriteInode(v, ino, inode), other) == ReadInode(v, other)
  {
    InodeInTable(v, ino);
    InodeInTable(v, other);
    InodesApart(v, ino, other);
    var w := WriteInode(v, ino, inode);
    assert InodeBlock(w, other) == InodeBlock(v, other) && InodeOffset(w, other) == InodeOffset(v, other);
    var block, at := InodeBlock(v, other), InodeOffset(v, other) % 1024;
    assert w.disk[block][at..at + INODE_BYTES] == v.disk[block][at..at + INODE_BYTES];
  }

  /** Where an inode of the volume lies, and that it does not cross the end of its block. */
  lemma InodePlace(v: Vol, ino: nat)
    requires Sized(v) && HasInode(v, ino)
    ensures var g, idx := (ino - 1) / v.sb.inodesPerGroup, (ino - 1) % v.sb.inodesPerGroup;
            && InodeGroup(v, ino) == g && InodeOffset(v, ino) == idx * v.sb.inodeSize
            && InodeBlock(v, ino) == v.groups[g].inodeTable + idx * v.sb.inodeSize / 1024
            && InodeOffset(v, ino) % 1024 + INODE_BYTES <= 1024
  {
    var idx := (ino - 1) % v.sb.inodesPerGroup;
    InodeSlots(v.sb.inodeSize, idx, idx);
  }

  // The volume in place

  class Volume {
    const sb: Super
    const disk: array<seq<Byte>>
    const groups: array<Group>
    var freeBlocks: int
    var freeInodes: int

    ghost function View(): Vol
      reads this, disk, groups
    {
      Vol(sb, disk[..], groups[..], freeBlocks, freeInodes)
    }

    constructor (v: Vol)
      ensures View() == v && fresh(disk) && fresh(groups)
    {
      sb := v.sb;
      disk := new seq<Byte>[|v.disk|](i requires 0 <= i < |v.disk| => v.disk[i]);
      groups := new Group[|v.groups|](i requires 0 <= i < |v.groups| => v.groups[i]);
      freeBlocks, freeInodes := v.freeBlocks, v.freeInodes;
      new;
      assert disk[..] == v.disk && groups[..] == v.groups;
    }

    /** `ext2_alloc_block` and `ext2_alloc_inode`, which differ only in the fields they use. */
    method AllocNumber(kind: Kind) returns (number: nat)
      requires Sized(View())
      modifies this, disk, groups
      ensures View() == Alloc(old(View()), kind).0 && number == Alloc(old(View()), kind).1
    {
      hide FindFree, Take, Sized;
      var found := FindBit(kind);
      if found.None? { return 0; }
      var g, b := found.value.0, found.value.1;
      TakeBit(kind, g, b);
      return if kind.BlockKind? then g * sb.blocksPerGroup + b + sb.firstDataBlock else g * sb.inodesPerGroup + b + 1;
    }

    /** The group loop of the allocators. */
    method FindBit(kind: Kind) returns (found: Option<(nat, nat)>)
      requires Sized(View())
      ensures found == FindFree(View(), kind, 0)
      ensures found.Some? ==> View().BitmapBlock(kind, found.value.0) < disk.Length
    {
      var per := if kind.BlockKind? then sb.blocksPerGroup else sb.inodesPerGroup;
      for g := 0 to groups.Length
        invariant FindFree(View(), kind, 0) == FindFree(View(), kind, g)
      {
        var free := if kind.BlockKind? then groups[g].freeBlocks else groups[g].freeInodes;
        var block := if kind.BlockKind? then groups[g].blockBitmap else groups[g].inodeBitmap;
        if free == 0 || block >= disk.Length { continue; }
        var b := ScanBitmap(disk[block], per);
        if b < per {
          return Some((g, b));
        }
      }
      return None;
    }

    /** Mark bit `b` of group `g` and lower both counts. */
    method TakeBit(kind: Kind, g: nat, b: nat)
      requires Sized(View()) && g < groups.Length && b < View().PerGroup(kind)
      requires View().FreeCount(kind, g) > 0 && View().BitmapBlock(kind, g) < disk.Length
      modifies this, disk, groups
      ensures View() == Take(old(View()), kind, g, b)
    {
      var block := if kind.BlockKind? then groups[g].blockBitmap else groups[g].inodeBitmap;
      var bitmap := disk[block];
      assert Pow2(8) == 256;
      BitOpsInRange(bitmap[b / 8], b % 8, 8);
      disk[block] := bitmap[b / 8 := SetBit(bitmap[b / 8], b % 8)];
      assert disk[block] == WithBit(bitmap, b);
      if kind.BlockKind? {
        groups[g] := groups[g].(freeBlocks := groups[g].freeBlocks - 1);
        freeBlocks := freeBlocks - 1;
      } else {
        groups[g] := groups[g].(freeInodes := groups[g].freeInodes - 1);
        freeInodes := freeInodes - 1;
      }
    }

    /** The bit loop of the allocators. */
    method ScanBitmap(bitmap: seq<Byte>, n: nat) returns (b: nat)
      requires n <= 8 * |bitmap|
      ensures b == FirstClear(bitmap, n, 0)
    {
      b := 0;
      while b < n
        invariant 0 <= b <= n && FirstClear(bitmap, n, 0) == FirstClear(bitmap, n, b)
      {
        if !Bit(bitmap[b / 8], b % 8) { return; }
        b := b + 1;
      }
    }

    method LoadInode(ino: nat) returns (inode: Option<seq<Byte>>)
      requires Sized(View())
      ensures inode == ReadInode(View(), ino)
    {
      hide InodeBlock, InodeOffset, InodeGroup;
      if ino == 0 { return None; }
      var g, idx := (ino - 1) / sb.inodesPerGroup, (ino - 1) % sb.inodesPerGroup;
      if g >= groups.Length { return None; }
      InodePlace(View(), ino);
      var block, at := groups[g].inodeTable + idx * sb.inodeSize / 1024, idx * sb.inodeSize % 1024;
      if block >= disk.Length { return None; }
      return Some(disk[block][at..at + INODE_BYTES]);
    }

    method StoreInode(ino: nat, inode: seq<Byte>)
      requires Sized(View()) && |inode| == INODE_BYTES
      modifies disk
      ensures View() == WriteInode(old(View()), ino, inode)
    {
      hide InodeBlock, InodeOffset, InodeGroup;
      if ino == 0 { return; }
      var g, idx := (ino - 1) / sb.inodesPerGroup, (ino - 1) % sb.inodesPerGroup;
      if g >= groups.Length { return; }
      InodePlace(View(), ino);
      var block, at := groups[g].inodeTable + idx * sb.inodeSize / 1024, idx * sb.inodeSize % 1024;
      if block >= disk.Length { return; }
      disk[block] := PutBytes(disk[block], at, inode);
    }
  }
}
