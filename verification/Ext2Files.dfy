/**
 Reading and writing ext2 files (kernel/fs/ext2/ext2.c): block resolution
 through direct and indirect pointers, and read and write through blocks.
 The abstraction of a file is the byte at each position; the invariant is that
 every block has one owner.
 */
module Ext2Files {
  import opened Arith
  import opened Bytes
  import opened Options
  import opened Ext2Volume

  const U32: nat := 0x1_0000_0000
  const U64: nat := 0x1_0000_0000_0000_0000

  /** The positions whose block number the 32-bit cast leaves alone: 2^32 blocks of 1024 bytes. */
  const FILE_SPAN: nat := 0x400_0000_0000

  const WORD: nat := 4
  const DIRECT_BLOCKS: nat := 12
  const PTRS_PER_BLOCK: nat := 256

  // Inode fields

  function Size(inode: seq<Byte>): nat { Le(inode, 4, WORD) }

  function Ptr(inode: seq<Byte>, k: nat): nat { Le(inode, 40 + 4 * k, WORD) }

  function WithSize(inode: seq<Byte>, size: nat): seq<Byte>
    requires |inode| == INODE_BYTES
  {
    PutLe(inode, 4, WORD, size)
  }

  /** A new direct pointer, and two more 512-byte sectors in `i_blocks`. */
  function WithPtr(inode: seq<Byte>, k: nat, block: nat): seq<Byte>
    requires |inode| == INODE_BYTES && k < 15
  {
    PutLe(PutLe(inode, 40 + 4 * k, WORD, block), 28, WORD, (Le(inode, 28, WORD) + 2) % U32)
  }

  lemma WordRange(s: seq<Byte>, i: nat)
    ensures Le(s, i, WORD) < U32
  {
    LeRange(s, i, WORD);
    assert Pow256(4) == 0x1_0000_0000;
  }

  lemma WithSizeFields(inode: seq<Byte>, size: nat)
    requires |inode| == INODE_BYTES && size < U32
    ensures |WithSize(inode, size)| == INODE_BYTES && Size(WithSize(inode, size)) == size
    ensures forall k: nat :: k < 15 ==> Ptr(WithSize(inode, size), k) == Ptr(inode, k)
  {
    assert Pow256(4) == 0x1_0000_0000;
    PutLeReads(inode, 4, WORD, size);
  }

  lemma WithPtrFields(inode: seq<Byte>, k: nat, block: nat)
    requires |inode| == INODE_BYTES && k < 15 && block < U32
    ensures var r := WithPtr(inode, k, block);
            && |r| == INODE_BYTES && Size(r) == Size(inode)
            && forall j: nat :: j < 15 ==> Ptr(r, j) == if j == k then block else Ptr(inode, j)
  {
    assert Pow256(4) == 0x1_0000_0000;
    var mid := PutLe(inode, 40 + 4 * k, WORD, block);
    PutLeReads(inode, 40 + 4 * k, WORD, block);
    PutLeReads(mid, 28, WORD, (Le(inode, 28, WORD) + 2) % U32);
  }

  // The sectors a file is charged with

  /** `i_blocks` */
  function Sectors(inode: seq<Byte>): nat { Le(inode, 28, WORD) }

  /** How many of the first `n` pointers name a block. */
  function InUse(inode: seq<Byte>, n: nat): nat {
    if n == 0 then 0 else InUse(inode, n - 1) + if Ptr(inode, n - 1) != 0 then 1 else 0
  }

  /** Two 512-byte sectors were added for each pointer that came into use, modulo 2^32. */
  predicate Charged(inode: seq<Byte>, inode': seq<Byte>) {
    var before, now := InUse(inode, 15), InUse(inode', 15);
    before <= now && Sectors(inode') == (Sectors(inode) + 2 * (now - before)) % U32
  }

  lemma ChargedSelf(inode: seq<Byte>)
    ensures Charged(inode, inode)
  {
    WordRange(inode, 28);
  }

  lemma ChargedTrans(a: seq<Byte>, b: seq<Byte>, c: seq<Byte>)
    requires Charged(a, b) && Charged(b, c)
    ensures Charged(a, c)
  {
    hide InUse, Sectors;
    TwoSteps(Sectors(a), 2 * (InUse(b, 15) - InUse(a, 15)), 2 * (InUse(c, 15) - InUse(b, 15)));
  }

  lemma TwoSteps(s: nat, x: nat, y: nat)
    ensures ((s + x) % U32 + y) % U32 == (s + (x + y)) % U32
  {
  }

  lemma {:induction false} InUseAfter(inode: seq<Byte>, inode': seq<Byte>, k: nat, n: nat)
    requires n <= 15 && forall j: nat :: j < n && j != k ==> Ptr(inode', j) == Ptr(inode, j)
    requires k < n ==> Ptr(inode, k) == 0
    ensures InUse(inode', n) == InUse(inode, n) + if k < n && Ptr(inode', k) != 0 then 1 else 0
  {
    hide Ptr;
    if n > 0 { InUseAfter(inode, inode', k, n - 1); }
  }

  lemma WithPtrSectors(inode: seq<Byte>, k: nat, block: nat)
    requires |inode| == INODE_BYTES && k < 15 && block < U32
    ensures Sectors(WithPtr(inode, k, block)) == (Sectors(inode) + 2) % U32
  {
    assert Pow256(4) == 0x1_0000_0000;
    PutLeReads(PutLe(inode, 40 + 4 * k, WORD, block), 28, WORD, (Le(inode, 28, WORD) + 2) % U32);
  }

  /** A pointer stored where there was none is charged for exactly when it names a block. */
  lemma WithPtrCharged(inode: seq<Byte>, k: nat, block: nat)
    requires |inode| == INODE_BYTES && k < 15 && block < U32 && Ptr(inode, k) == 0
    ensures Charged(inode, WithPtr(inode, k, block)) <==> block != 0
  {
    hide Ptr, WithPtr, InUse, Sectors;
    var r := WithPtr(inode, k, block);
    WithPtrFields(inode, k, block);
    WithPtrSectors(inode, k, block);
    InUseAfter(inode, r, k, 15);
    SectorsRange(inode);
  }

  lemma SectorsRange(inode: seq<Byte>)
    ensures Sectors(inode) < U32
  {
    WordRange(inode, 28);
  }

  lemma WithSizeSectors(inode: seq<Byte>, size: nat)
    requires |inode| == INODE_BYTES && size < U32
    ensures Sectors(WithSize(inode, size)) == Sectors(inode) && InUse(WithSize(inode, size), 15) == InUse(inode, 15)
  {
    hide Ptr, Size, WithSize;
    var r := WithSize(inode, size);
    WithSizeFields(inode, size);
    WithSizeWord(inode, size);
    InUseSame(inode, r, 15);
  }

  lemma WithSizeWord(inode: seq<Byte>, size: nat)
    requires |inode| == INODE_BYTES && size < U32
    ensures Sectors(WithSize(inode, size)) == Sectors(inode)
  {
    assert Pow256(4) == 0x1_0000_0000;
    PutLeReads(inode, 4, WORD, size);
  }

  lemma {:induction false} InUseSame(inode: seq<Byte>, inode': seq<Byte>, n: nat)
    requires n <= 15 && forall j: nat :: j < n ==> Ptr(inode', j) == Ptr(inode, j)
    ensures InUse(inode', n) == InUse(inode, n)
  {
    hide Ptr;
    if n > 0 { InUseSame(inode, inode', n - 1); }
  }

  // Block resolution

  /** The places of an inode's block tree. */
  datatype Slot = Direct(k: nat) | Ind | IndPtr(j: nat) | Dbl | DblPtr(j: nat) | DblLeaf(j: nat, k: nat)

  predicate SlotOk(slot: Slot) {
    match slot
    case Direct(k) => k < DIRECT_BLOCKS
    case IndPtr(j) => j < PTRS_PER_BLOCK
    case DblPtr(j) => j < PTRS_PER_BLOCK
    case DblLeaf(j, k) => j < PTRS_PER_BLOCK && k < PTRS_PER_BLOCK
    case _ => true
  }

  /** Pointer `j` of a pointer block; zero if there is no such block or it cannot be read. */
  function PtrIn(disk: seq<seq<Byte>>, block: nat, j: nat): nat {
    if block == 0 || block >= |disk| then 0 else Le(disk[block], 4 * j, WORD)
  }

  function BlockAt(disk: seq<seq<Byte>>, inode: seq<Byte>, slot: Slot): nat {
    match slot
    case Direct(k) => Ptr(inode, k)
    case Ind => Ptr(inode, 12)
    case IndPtr(j) => PtrIn(disk, Ptr(inode, 12), j)
    case Dbl => Ptr(inode, 13)
    case DblPtr(j) => PtrIn(disk, Ptr(inode, 13), j)
    case DblLeaf(j, k) => PtrIn(disk, PtrIn(disk, Ptr(inode, 13), j), k)
  }

  /** The place of file block `fb`; none past the double-indirect range. */
  function SlotOf(fb: nat): (r: Option<Slot>)
    ensures r.Some? ==> SlotOk(r.value)
  {
    if fb < 12 then Some(Direct(fb))
    else if fb - 12 < 256 then Some(IndPtr(fb - 12))
    else if fb - 268 < 65536 then Some(DblLeaf((fb - 268) / 256, (fb - 268) % 256))
    else None
  }

  /** `ext2_get_file_block` */
  function FileBlock(disk: seq<seq<Byte>>, inode: seq<Byte>, fb: nat): nat {
    match SlotOf(fb) case None => 0 case Some(slot) => BlockAt(disk, inode, slot)
  }

  /** Word `j` of block `b` of the disk; zero if there is no such block. */
  function WordOf(disk: seq<seq<Byte>>, b: nat, j: nat): nat {
    if 0 < b < |disk| then Le(disk[b], 4 * j, WORD) else 0
  }

  /** The first twelve file blocks are named in the inode. */
  lemma DirectBlock(disk: seq<seq<Byte>>, inode: seq<Byte>, k: nat)
    requires k < 12
    ensures FileBlock(disk, inode, k) == Le(inode, 40 + 4 * k, WORD)
  {
  }

  /** The next 256 are named, in order, in the block that the thirteenth pointer names. */
  lemma IndirectBlock(disk: seq<seq<Byte>>, inode: seq<Byte>, j: nat)
    requires j < 256
    ensures FileBlock(disk, inode, 12 + j) == WordOf(disk, Le(inode, 88, WORD), j)
  {
  }

  /** The next 65536 go by 256 through the blocks named in the block that the fourteenth pointer names. */
  lemma DoubleIndirectBlock(disk: seq<seq<Byte>>, inode: seq<Byte>, j: nat, k: nat)
    requires j < 256 && k < 256
    ensures FileBlock(disk, inode, 268 + 256 * j + k) == WordOf(disk, WordOf(disk, Le(inode, 92, WORD), j), k)
  {
    DivModOf(j, 256, k);
  }

  /** Past them there are none. */
  lemma NoBlock(disk: seq<seq<Byte>>, inode: seq<Byte>, fb: nat)
    requires fb >= 268 + 65536
    ensures FileBlock(disk, inode, fb) == 0
  {
  }

  /** Different file blocks have different places. */
  lemma PlacesDiffer(fb: nat, other: nat)
    requires fb < other < 268 + 65536
    ensures SlotOf(fb).Some? && SlotOf(other).Some? && SlotOf(fb) != SlotOf(other)
  {
    if fb >= 268 { SameQuotientDiffers(fb - 268, other - 268); }
  }

  lemma SameQuotientDiffers(x: nat, y: nat)
    requires x != y
    ensures x / 256 != y / 256 || x % 256 != y % 256
  {
  }

  /** The byte of the file at `pos`: zero in a hole. */
  function ByteAt(disk: seq<seq<Byte>>, inode: seq<Byte>, pos: nat): Byte {
    var b := FileBlock(disk, inode, (pos / 1024) % U32);
    if b == 0 || b >= |disk| || pos % 1024 >= |disk[b]| then 0 else disk[b][pos % 1024]
  }

  /** Byte `r` of file block `fb` is byte `r` of the disk block it is in. */
  lemma ByteOfBlock(disk: seq<seq<Byte>>, inode: seq<Byte>, fb: nat, r: nat)
    requires fb < U32 && r < 1024
    ensures var b := FileBlock(disk, inode, fb);
            ByteAt(disk, inode, fb * 1024 + r) == if 0 < b < |disk| && r < |disk[b]| then disk[b][r] else 0
  {
    DivModOf(fb, 1024, r);
  }

  /** How many bytes `ext2_vfs_read` returns; the end of the range is computed in 64 bits. */
  function ReadCount(end: nat, offset: nat, size: nat): nat {
    if offset >= end then 0
    else if (offset + size) % U64 > end then end - offset else size
  }

  function ReadFile(disk: seq<seq<Byte>>, inode: seq<Byte>, offset: nat, size: nat): seq<Byte> {
    var n := ReadCount(Size(inode), offset, size);
    seq<Byte>(n, i requires 0 <= i < n => ByteAt(disk, inode, offset + i))
  }

  /** A read stays inside the file exactly when the end of the range fits 64 bits. */
  lemma ReadStaysInside(end: nat, offset: nat, size: nat)
    requires offset < end < U32 && size < U64
    ensures offset + ReadCount(end, offset, size) <= end <==> offset + size < U64
  {
  }

  predicate PointerSlot(slot: Slot) {
    slot.Ind? || slot.Dbl? || slot.DblPtr?
  }

  /** Block resolution reads nothing but the inode's own pointer blocks. */
  lemma BlockAtSame(disk: seq<seq<Byte>>, disk': seq<seq<Byte>>, inode: seq<Byte>, slot: Slot)
    requires |disk'| == |disk| && SlotOk(slot)
    requires forall p :: SlotOk(p) && PointerSlot(p) ==>
                           var b := BlockAt(disk, inode, p); 0 < b < |disk| ==> disk'[b] == disk[b]
    ensures BlockAt(disk', inode, slot) == BlockAt(disk, inode, slot)
  {
    assert SlotOk(Ind) && SlotOk(Dbl);
    match slot
    case IndPtr(j) => assert BlockAt(disk, inode, Ind) == Ptr(inode, 12);
    case DblPtr(j) => assert BlockAt(disk, inode, Dbl) == Ptr(inode, 13);
    case DblLeaf(j, k) =>
      assert BlockAt(disk, inode, Dbl) == Ptr(inode, 13);
      assert SlotOk(DblPtr(j)) && BlockAt(disk, inode, DblPtr(j)) == PtrIn(disk, Ptr(inode, 13), j);
    case _ =>
  }

  // Ownership

  /** An open file: its inode number and the inode in memory. */
  datatype Node = Node(ino: nat, inode: seq<Byte>)

  /** A block that holds neither a bitmap nor inodes. */
  ghost predicate OutsideMetadata(v: Vol, b: nat) {
    && (forall kind, g: nat :: g < |v.groups| ==> v.BitmapBlock(kind, g) != b)
    && (forall g: nat :: g < |v.groups| ==> !InTable(v, g, b))
  }

  ghost predicate IsData(v: Vol, b: nat)
    requires v.sb.blocksPerGroup > 0
  {
    0 < b < |v.disk| && Used(v, BlockKind, b) && OutsideMetadata(v, b)
  }

  /** Metadata is marked used, and every number the allocator can return is on the disk. */
  ghost predicate Formatted(v: Vol) {
    && Mounted(v) && |v.disk| <= U32
    && (forall b: nat :: b >= v.sb.firstDataBlock && !OutsideMetadata(v, b) ==> Used(v, BlockKind, b))
    && (forall g: nat, b: nat :: g < |v.groups| && b < v.sb.blocksPerGroup && !BitAt(v.Bitmap(BlockKind, g), b) ==>
                                   Number(v, BlockKind, g, b) < |v.disk|)
  }

  /** Every block of every file is a data block. */
  ghost predicate AllData(v: Vol, nodes: seq<Node>)
    requires v.sb.blocksPerGroup > 0
  {
    forall i, slot :: 0 <= i < |nodes| && SlotOk(slot) && BlockAt(v.disk, nodes[i].inode, slot) != 0 ==>
                        IsData(v, BlockAt(v.disk, nodes[i].inode, slot))
  }

  /** No block has two owners, within a file or between files. */
  ghost predicate OneOwner(disk: seq<seq<Byte>>, nodes: seq<Node>) {
    forall i, slot, j, slot' | 0 <= i < |nodes| && 0 <= j < |nodes| && SlotOk(slot) && SlotOk(slot')
      :: BlockAt(disk, nodes[i].inode, slot) == BlockAt(disk, nodes[j].inode, slot') != 0 ==> i == j && slot == slot'
  }

  ghost predicate Owned(v: Vol, nodes: seq<Node>)
    requires v.sb.blocksPerGroup > 0
  {
    && (forall i :: 0 <= i < |nodes| ==> |nodes[i].inode| == INODE_BYTES && HasInode(v, nodes[i].ino))
    && AllData(v, nodes) && OneOwner(v.disk, nodes)
  }

  /** A change to blocks outside the pointer blocks of the files leaves every file's block tree as it was. */
  lemma TreesKept(v: Vol, disk': seq<seq<Byte>>, nodes: seq<Node>, i: nat)
    requires v.sb.blocksPerGroup > 0 && AllData(v, nodes) && i < |nodes| && |disk'| == |v.disk|
    requires forall p :: SlotOk(p) && PointerSlot(p) ==>
                           var b := BlockAt(v.disk, nodes[i].inode, p); 0 < b < |v.disk| ==> disk'[b] == v.disk[b]
    ensures forall slot :: SlotOk(slot) ==>
            BlockAt(disk', nodes[i].inode, slot) == BlockAt(v.disk, nodes[i].inode, slot)
  {
    forall slot | SlotOk(slot) ensures BlockAt(disk', nodes[i].inode, slot) == BlockAt(v.disk, nodes[i].inode, slot) {
      BlockAtSame(v.disk, disk', nodes[i].inode, slot);
    }
  }

  lemma TreeGivesFileBlocks(disk: seq<seq<Byte>>, disk': seq<seq<Byte>>, inode: seq<Byte>, inode': seq<Byte>, fb: nat)
    requires forall slot :: SlotOk(slot) ==> BlockAt(disk', inode', slot) == BlockAt(disk, inode, slot)
    ensures FileBlock(disk', inode', fb) == FileBlock(disk, inode, fb)
  {
  }

  /** A change to metadata blocks only: files, owners and contents stay. */
  lemma MetadataWrite(v: Vol, w: Vol, nodes: seq<Node>)
    requires v.sb.blocksPerGroup > 0 && Owned(v, nodes) && w.sb == v.sb && |w.disk| == |v.disk|
    requires |w.groups| == |v.groups|
    requires forall b: nat :: b < |v.disk| && OutsideMetadata(v, b) ==> w.disk[b] == v.disk[b]
    requires forall b: nat :: OutsideMetadata(v, b) ==> OutsideMetadata(w, b)
    requires forall b: nat :: Used(v, BlockKind, b) ==> Used(w, BlockKind, b)
    ensures Owned(w, nodes)
    ensures forall i, slot :: 0 <= i < |nodes| && SlotOk(slot) ==>
                                BlockAt(w.disk, nodes[i].inode, slot) == BlockAt(v.disk, nodes[i].inode, slot)
    ensures forall i, pos: nat :: 0 <= i < |nodes| ==>
                                    ByteAt(w.disk, nodes[i].inode, pos) == ByteAt(v.disk, nodes[i].inode, pos)
  {
    forall i, slot | 0 <= i < |nodes| && SlotOk(slot)
      ensures BlockAt(w.disk, nodes[i].inode, slot) == BlockAt(v.disk, nodes[i].inode, slot)
    {
      forall p | SlotOk(p) && PointerSlot(p)
        ensures var b := BlockAt(v.disk, nodes[i].inode, p); 0 < b < |v.disk| ==> w.disk[b] == v.disk[b]
      {
        assert BlockAt(v.disk, nodes[i].inode, p) != 0 ==> IsData(v, BlockAt(v.disk, nodes[i].inode, p));
      }
      TreesKept(v, w.disk, nodes, i);
    }
    forall i, slot | 0 <= i < |nodes| && SlotOk(slot) && BlockAt(w.disk, nodes[i].inode, slot) != 0
      ensures IsData(w, BlockAt(w.disk, nodes[i].inode, slot))
    {
      assert IsData(v, BlockAt(v.disk, nodes[i].inode, slot));
    }
    forall i, pos: nat | 0 <= i < |nodes|
      ensures ByteAt(w.disk, nodes[i].inode, pos) == ByteAt(v.disk, nodes[i].inode, pos)
    {
      SameByte(v, w.disk, nodes, i, pos);
    }
  }

  /** Same block tree, same data blocks: same byte. */
  lemma SameByte(v: Vol, disk': seq<seq<Byte>>, nodes: seq<Node>, i: nat, pos: nat)
    requires v.sb.blocksPerGroup > 0 && AllData(v, nodes) && i < |nodes| && |disk'| == |v.disk|
    requires forall slot :: SlotOk(slot) ==>
             BlockAt(disk', nodes[i].inode, slot) == BlockAt(v.disk, nodes[i].inode, slot)
    requires var b := FileBlock(v.disk, nodes[i].inode, (pos / 1024) % U32);
             0 < b < |v.disk| && OutsideMetadata(v, b) ==> disk'[b] == v.disk[b]
    ensures ByteAt(disk', nodes[i].inode, pos) == ByteAt(v.disk, nodes[i].inode, pos)
  {
    var fb := (pos / 1024) % U32;
    TreeGivesFileBlocks(v.disk, disk', nodes[i].inode, nodes[i].inode, fb);
    if SlotOf(fb).Some? {
      assert BlockAt(v.disk, nodes[i].inode, SlotOf(fb).value) != 0 ==>
               IsData(v, BlockAt(v.disk, nodes[i].inode, SlotOf(fb).value));
    }
  }

  ghost predicate InodesSame(v: Vol, w: Vol) {
    forall ino: nat :: ReadInode(w, ino) == ReadInode(v, ino)
  }

  /** A change outside the inode tables leaves every inode as it was. */
  lemma TablesKept(v: Vol, w: Vol)
    requires Sized(v) && Laid(v) && w.sb == v.sb && |w.groups| == |v.groups| && |w.disk| == |v.disk|
    requires forall g: nat :: g < |v.groups| ==> w.groups[g].inodeTable == v.groups[g].inodeTable
    requires forall b: nat, g: nat :: b < |v.disk| && g < |v.groups| && InTable(v, g, b) ==> w.disk[b] == v.disk[b]
    ensures InodesSame(v, w)
  {
    forall ino: nat ensures ReadInode(w, ino) == ReadInode(v, ino) {
      if HasInode(v, ino) {
        InodeInTable(v, ino);
        assert w.disk[InodeBlock(v, ino)] == v.disk[InodeBlock(v, ino)];
      }
    }
  }

  // Writing one chunk

  /** A direct block ready to be overwritten: the volume and inode it belongs to, and its contents in the buffer. */
  datatype Prep = Prep(v: Vol, inode: seq<Byte>, buf: seq<Byte>)

  /** Read the block, or allocate one and start from zeros; None when the disk is full. */
  function PrepareBlock(v: Vol, inode: seq<Byte>, fb: nat): (p: Option<Prep>)
    requires |inode| == INODE_BYTES && fb < DIRECT_BLOCKS
    ensures p.Some? ==> |p.value.inode| == INODE_BYTES
  {
    var block := Ptr(inode, fb);
    if block == 0 then
      var (w, n) := Alloc(v, BlockKind);
      if n == 0 then None else Some(Prep(w, WithPtr(inode, fb, n), seq(BLOCK_SIZE, _ => 0)))
    else Some(Prep(v, inode, if block < |v.disk| then v.disk[block] else []))
  }

  /** Put the chunk into the buffer at `at` and write the block. */
  function StoreChunk(p: Prep, fb: nat, at: nat, chunk: seq<Byte>): Vol {
    var block := Ptr(p.inode, fb);
    if block < |p.v.disk| && at + |chunk| <= |p.buf|
    then p.v.(disk := p.v.disk[block := PutBytes(p.buf, at, chunk)]) else p.v
  }

  /** From `v` to `w` only bitmaps and counts changed: files and inodes are as they were. */
  ghost predicate FilesSame(v: Vol, nodes: seq<Node>, w: Vol) {
    && w.sb == v.sb && |w.disk| == |v.disk| && InodesSame(v, w)
    && (forall i, slot :: 0 <= i < |nodes| && SlotOk(slot) ==>
                            BlockAt(w.disk, nodes[i].inode, slot) == BlockAt(v.disk, nodes[i].inode, slot))
    && (forall i, pos: nat :: 0 <= i < |nodes| ==>
                                ByteAt(w.disk, nodes[i].inode, pos) == ByteAt(v.disk, nodes[i].inode, pos))
  }

  ghost predicate Unowned(v: Vol, nodes: seq<Node>, n: nat) {
    forall i, slot :: 0 <= i < |nodes| && SlotOk(slot) ==> BlockAt(v.disk, nodes[i].inode, slot) != n
  }

  /** Taking a free block touches no file, and the block is a data block nobody owns. */
  lemma TakeForFile(v: Vol, nodes: seq<Node>, g: nat, b: nat)
    requires Formatted(v) && Owned(v, nodes) && g < |v.groups| && v.FreeCount(BlockKind, g) > 0
    requires b < v.PerGroup(BlockKind) && !BitAt(v.Bitmap(BlockKind, g), b)
    ensures var w, n := Take(v, BlockKind, g, b), Number(v, BlockKind, g, b);
            Formatted(w) && Owned(w, nodes) && FilesSame(v, nodes, w) && n < U32 && IsData(w, n) && Unowned(w, nodes, n)
  {
    var w, n := Take(v, BlockKind, g, b), Number(v, BlockKind, g, b);
    TakeKeepsMounted(v, BlockKind, g, b);
    TakeBitmaps(v, BlockKind, g, b);
    TakeUses(v, BlockKind, g, b);
    SameMetadata(v, w);
    TablesKept(v, w);
    MetadataWrite(v, w, nodes);
    assert n < |v.disk|;
    TakeKeepsFormatted(v, w);
    FreeIsUnowned(v, w, nodes, n);
  }

  /** A block that was free is nobody's. */
  lemma FreeIsUnowned(v: Vol, w: Vol, nodes: seq<Node>, n: nat)
    requires v.sb.blocksPerGroup > 0 && AllData(v, nodes) && FilesSame(v, nodes, w) && n > 0 && !Used(v, BlockKind, n)
    ensures Unowned(w, nodes, n)
  {
    forall i, slot | 0 <= i < |nodes| && SlotOk(slot) ensures BlockAt(w.disk, nodes[i].inode, slot) != n {
      assert BlockAt(v.disk, nodes[i].inode, slot) != 0 ==> IsData(v, BlockAt(v.disk, nodes[i].inode, slot));
    }
  }

  /** Marking more blocks used keeps a volume formatted. */
  lemma TakeKeepsFormatted(v: Vol, w: Vol)
    requires Formatted(v) && Mounted(w) && w.sb == v.sb && |w.groups| == |v.groups| && |w.disk| == |v.disk|
    requires forall b: nat :: OutsideMetadata(w, b) <==> OutsideMetadata(v, b)
    requires forall b: nat :: Used(v, BlockKind, b) ==> Used(w, BlockKind, b)
    requires forall h: nat, c: nat :: h < |w.groups| && !BitAt(w.Bitmap(BlockKind, h), c) ==>
             !BitAt(v.Bitmap(BlockKind, h), c)
    ensures Formatted(w)
  {
    forall h: nat, c: nat | h < |w.groups| && c < w.sb.blocksPerGroup && !BitAt(w.Bitmap(BlockKind, h), c)
      ensures Number(w, BlockKind, h, c) < |w.disk|
    {
      assert Number(v, BlockKind, h, c) < |v.disk|;
    }
  }

  lemma SameMetadata(v: Vol, w: Vol)
    requires w.sb == v.sb && |w.groups| == |v.groups|
    requires forall kind, g: nat :: g < |v.groups| ==> w.BitmapBlock(kind, g) == v.BitmapBlock(kind, g)
    requires forall g: nat :: g < |v.groups| ==> w.groups[g].inodeTable == v.groups[g].inodeTable
    ensures forall b: nat :: OutsideMetadata(w, b) <==> OutsideMetadata(v, b)
  {
    assert w.TableBlocks() == v.TableBlocks();
    forall b: nat, g: nat | g < |v.groups| ensures InTable(w, g, b) <==> InTable(v, g, b) {}
  }

  /** Giving a fresh data block to a file keeps every block with one owner. */
  lemma AdoptBlock(v: Vol, nodes: seq<Node>, i: nat, fb: nat, n: nat)
    requires v.sb.blocksPerGroup > 0 && Owned(v, nodes) && i < |nodes| && fb < DIRECT_BLOCKS && n < U32 && IsData(v, n)
    requires Unowned(v, nodes, n)
    ensures var node := nodes[i].(inode := WithPtr(nodes[i].inode, fb, n));
            Owned(v, nodes[i := node]) && Size(node.inode) == Size(nodes[i].inode)
  {
    WithPtrFields(nodes[i].inode, fb, n);
    AdoptedSlots(v.disk, nodes[i].inode, WithPtr(nodes[i].inode, fb, n), fb, n);
    AdoptedOwners(v, nodes, i, WithPtr(nodes[i].inode, fb, n), fb, n);
  }

  lemma AdoptedSlots(disk: seq<seq<Byte>>, inode: seq<Byte>, inode': seq<Byte>, fb: nat, n: nat)
    requires fb < DIRECT_BLOCKS && forall j: nat :: j < 15 ==> Ptr(inode', j) == if j == fb then n else Ptr(inode, j)
    ensures forall slot :: SlotOk(slot) ==>
                             BlockAt(disk, inode', slot) == if slot == Direct(fb) then n else BlockAt(disk, inode, slot)
  {
  }

  lemma AdoptedOwners(v: Vol, nodes: seq<Node>, i: nat, inode: seq<Byte>, fb: nat, n: nat)
    requires v.sb.blocksPerGroup > 0 && Owned(v, nodes) && i < |nodes| && IsData(v, n) && Unowned(v, nodes, n)
    requires |inode| == INODE_BYTES
    requires forall slot :: SlotOk(slot) ==>
                              BlockAt(v.disk, inode, slot) ==
                              if slot == Direct(fb) then n else BlockAt(v.disk, nodes[i].inode, slot)
    ensures Owned(v, nodes[i := nodes[i].(inode := inode)])
  {
    hide BlockAt, SlotOk, IsData;
    var nodes' := nodes[i := nodes[i].(inode := inode)];
    forall j, slot | 0 <= j < |nodes| && SlotOk(slot)
      ensures BlockAt(v.disk, nodes'[j].inode, slot) ==
              if j == i && slot == Direct(fb) then n else BlockAt(v.disk, nodes[j].inode, slot) {}
  }

  /** After preparation the file owns a direct block at `fb`, the buffer holds what the file reads there. */
  ghost predicate Prepares(v: Vol, nodes: seq<Node>, i: nat, fb: nat, p: Prep)
    requires i < |nodes|
  {
    && Formatted(p.v) && Owned(p.v, nodes[i := nodes[i].(inode := p.inode)]) && Size(p.inode) == Size(nodes[i].inode)
    && |p.buf| == BLOCK_SIZE && Ptr(p.inode, fb) != 0 && InodesSame(v, p.v)
    && (forall j, pos: nat :: 0 <= j < |nodes| && j != i ==>
                                ByteAt(p.v.disk, nodes[j].inode, pos) == ByteAt(v.disk, nodes[j].inode, pos))
    && (forall pos: nat :: (pos / 1024) % U32 != fb ==>
                             ByteAt(p.v.disk, p.inode, pos) == ByteAt(v.disk, nodes[i].inode, pos))
    && (forall pos: nat :: (pos / 1024) % U32 == fb ==> p.buf[pos % 1024] == ByteAt(v.disk, nodes[i].inode, pos))
  }

  lemma PrepareFresh(v: Vol, nodes: seq<Node>, i: nat, fb: nat)
    requires Formatted(v) && Owned(v, nodes) && i < |nodes| && fb < DIRECT_BLOCKS && Ptr(nodes[i].inode, fb) == 0
    requires PrepareBlock(v, nodes[i].inode, fb).Some?
    ensures Prepares(v, nodes, i, fb, PrepareBlock(v, nodes[i].inode, fb).value)
  {
    var (g, b) := FindFree(v, BlockKind, 0).value;
    var w, n := Take(v, BlockKind, g, b), Number(v, BlockKind, g, b);
    TakeForFile(v, nodes, g, b);
    AdoptBlock(w, nodes, i, fb, n);
    FreshBytes(v, w, nodes, i, fb, n);
  }

  lemma FreshBytes(v: Vol, w: Vol, nodes: seq<Node>, i: nat, fb: nat, n: nat)
    requires i < |nodes| && fb < DIRECT_BLOCKS && 0 < n < U32 && |nodes[i].inode| == INODE_BYTES
    requires Ptr(nodes[i].inode, fb) == 0 && FilesSame(v, nodes, w)
    ensures var inode := WithPtr(nodes[i].inode, fb, n);
            && Ptr(inode, fb) == n
            && (forall pos: nat :: (pos / 1024) % U32 != fb ==>
                                     ByteAt(w.disk, inode, pos) == ByteAt(v.disk, nodes[i].inode, pos))
            && (forall pos: nat :: (pos / 1024) % U32 == fb ==> ByteAt(v.disk, nodes[i].inode, pos) == 0)
  {
    WithPtrFields(nodes[i].inode, fb, n);
    var inode := WithPtr(nodes[i].inode, fb, n);
    forall pos: nat | (pos / 1024) % U32 != fb
      ensures ByteAt(w.disk, inode, pos) == ByteAt(v.disk, nodes[i].inode, pos)
    {
      assert ByteAt(w.disk, nodes[i].inode, pos) == ByteAt(v.disk, nodes[i].inode, pos);
      OtherFileBlock(w.disk, nodes[i].inode, inode, fb, (pos / 1024) % U32);
    }
    forall pos: nat | (pos / 1024) % U32 == fb ensures ByteAt(v.disk, nodes[i].inode, pos) == 0 {
      assert FileBlock(v.disk, nodes[i].inode, fb) == 0;
    }
  }

  lemma OtherFileBlock(disk: seq<seq<Byte>>, inode: seq<Byte>, inode': seq<Byte>, fb: nat, other: nat)
    requires forall slot :: SlotOk(slot) && slot != Direct(fb) ==>
             BlockAt(disk, inode', slot) == BlockAt(disk, inode, slot)
    requires other != fb
    ensures FileBlock(disk, inode', other) == FileBlock(disk, inode, other)
  {
  }

  lemma PrepareKept(v: Vol, nodes: seq<Node>, i: nat, fb: nat)
    requires Formatted(v) && Owned(v, nodes) && i < |nodes| && fb < DIRECT_BLOCKS && Ptr(nodes[i].inode, fb) != 0
    ensures PrepareBlock(v, nodes[i].inode, fb).Some?
    ensures Prepares(v, nodes, i, fb, PrepareBlock(v, nodes[i].inode, fb).value)
  {
    var p := PrepareBlock(v, nodes[i].inode, fb).value;
    assert nodes[i := nodes[i].(inode := p.inode)] == nodes;
    assert SlotOk(Direct(fb)) && BlockAt(v.disk, nodes[i].inode, Direct(fb)) == Ptr(nodes[i].inode, fb);
    assert IsData(v, Ptr(nodes[i].inode, fb));
    forall pos: nat | (pos / 1024) % U32 == fb ensures p.buf[pos % 1024] == ByteAt(v.disk, nodes[i].inode, pos) {
      assert FileBlock(v.disk, nodes[i].inode, fb) == Ptr(nodes[i].inode, fb);
    }
  }

  /** A volume and its open files. */
  datatype Files = Files(v: Vol, nodes: seq<Node>) {
    function With(i: nat, w: Vol, inode: seq<Byte>): Files
      requires i < |nodes|
    {
      Files(w, nodes[i := nodes[i].(inode := inode)])
    }

    function At(i: nat, pos: nat): Byte
      requires i < |nodes|
    {
      ByteAt(v.disk, nodes[i].inode, pos)
    }
  }

  ghost predicate Intact(fs: Files) {
    match fs case Files(v, nodes) => Formatted(v) && Owned(v, nodes)
  }

  /**
   Everything a write of `bytes` at `lo` of file `i` does to the files and to the
   other inodes: those bytes, and nothing else anywhere.
   */
  ghost predicate Wrote(fs: Files, i: nat, fs': Files, lo: nat, bytes: seq<Byte>)
    requires i < |fs.nodes|
  {
    match fs'
    case Files(w, nodes') =>
      && Intact(fs') && |nodes'| == |fs.nodes| && nodes'[i].ino == fs.nodes[i].ino
      && (forall j :: 0 <= j < |nodes'| && j != i ==> nodes'[j] == fs.nodes[j])
      && (forall ino: nat :: ino != fs.nodes[i].ino ==> ReadInode(w, ino) == ReadInode(fs.v, ino))
      && (forall j, pos: nat :: 0 <= j < |nodes'| && j != i ==> fs'.At(j, pos) == fs.At(j, pos))
      && (forall pos: nat :: pos < FILE_SPAN ==>
                               fs'.At(i, pos) == if lo <= pos < lo + |bytes| then bytes[pos - lo] else fs.At(i, pos))
  }

  /** Overwriting one owned block: every block tree and inode stays. */
  lemma StoreKeeps(v: Vol, nodes: seq<Node>, i: nat, fb: nat, content: seq<Byte>)
    requires Formatted(v) && Owned(v, nodes) && i < |nodes| && fb < DIRECT_BLOCKS && |content| == BLOCK_SIZE
    requires Ptr(nodes[i].inode, fb) != 0
    ensures Ptr(nodes[i].inode, fb) < |v.disk|
    ensures var w := v.(disk := v.disk[Ptr(nodes[i].inode, fb) := content]);
            Formatted(w) && Owned(w, nodes) && InodesSame(v, w) && TreesSame(v, nodes, w)
  {
    var b := Ptr(nodes[i].inode, fb);
    assert SlotOk(Direct(fb)) && BlockAt(v.disk, nodes[i].inode, Direct(fb)) == b;
    assert IsData(v, b);
    var w := v.(disk := v.disk[b := content]);
    WriteBlockKeeps(v, b, content);
    SameMetadata(v, w);
    TablesKept(v, w);
    TakeKeepsFormatted(v, w);
    StoreKeepsTrees(v, nodes, i, fb, content);
    TreesKeepOwners(v, nodes, w);
  }

  ghost predicate TreesSame(v: Vol, nodes: seq<Node>, w: Vol) {
    forall j, slot :: 0 <= j < |nodes| && SlotOk(slot) ==>
                        BlockAt(w.disk, nodes[j].inode, slot) == BlockAt(v.disk, nodes[j].inode, slot)
  }

  lemma StoreKeepsTrees(v: Vol, nodes: seq<Node>, i: nat, fb: nat, content: seq<Byte>)
    requires v.sb.blocksPerGroup > 0 && Owned(v, nodes) && i < |nodes| && fb < DIRECT_BLOCKS
    requires 0 < Ptr(nodes[i].inode, fb) < |v.disk|
    ensures TreesSame(v, nodes, v.(disk := v.disk[Ptr(nodes[i].inode, fb) := content]))
  {
    var b := Ptr(nodes[i].inode, fb);
    assert SlotOk(Direct(fb)) && BlockAt(v.disk, nodes[i].inode, Direct(fb)) == b;
    forall j, slot | 0 <= j < |nodes| && SlotOk(slot)
      ensures BlockAt(v.disk[b := content], nodes[j].inode, slot) == BlockAt(v.disk, nodes[j].inode, slot)
    {
      TreesKept(v, v.disk[b := content], nodes, j);
    }
  }

  lemma TreesKeepOwners(v: Vol, nodes: seq<Node>, w: Vol)
    requires v.sb.blocksPerGroup > 0 && Owned(v, nodes) && w.sb == v.sb && |w.groups| == |v.groups|
    requires |w.disk| == |v.disk| && TreesSame(v, nodes, w)
    requires forall b: nat :: OutsideMetadata(w, b) <==> OutsideMetadata(v, b)
    requires forall b: nat :: Used(v, BlockKind, b) ==> Used(w, BlockKind, b)
    ensures Owned(w, nodes)
  {
    forall j, slot | 0 <= j < |nodes| && SlotOk(slot) && BlockAt(w.disk, nodes[j].inode, slot) != 0
      ensures IsData(w, BlockAt(w.disk, nodes[j].inode, slot))
    {
      assert IsData(v, BlockAt(v.disk, nodes[j].inode, slot));
    }
  }

  lemma StoreBytes(v: Vol, nodes: seq<Node>, i: nat, fb: nat, content: seq<Byte>, j: nat, pos: nat)
    requires v.sb.blocksPerGroup > 0 && Owned(v, nodes) && i < |nodes| && fb < DIRECT_BLOCKS && |content| == BLOCK_SIZE
    requires 0 < Ptr(nodes[i].inode, fb) < |v.disk| && j < |nodes|
    requires TreesSame(v, nodes, v.(disk := v.disk[Ptr(nodes[i].inode, fb) := content]))
    ensures ByteAt(v.disk[Ptr(nodes[i].inode, fb) := content], nodes[j].inode, pos) ==
            if j == i && (pos / 1024) % U32 == fb then content[pos % 1024] else ByteAt(v.disk, nodes[j].inode, pos)
  {
    var b, other := Ptr(nodes[i].inode, fb), (pos / 1024) % U32;
    TreeGivesFileBlocks(v.disk, v.disk[b := content], nodes[j].inode, nodes[j].inode, other);
    assert SlotOk(Direct(fb)) && BlockAt(v.disk, nodes[i].inode, Direct(fb)) == b;
    if SlotOf(other).Some? {
      assert BlockAt(v.disk, nodes[j].inode, SlotOf(other).value) == b ==> j == i && SlotOf(other).value == Direct(fb);
    }
  }

  /** Preparing and storing one chunk within a block is a write of that chunk. */
  lemma ChunkEffect(fs: Files, i: nat, pos: nat, chunk: seq<Byte>, p: Prep)
    requires Intact(fs) && i < |fs.nodes| && pos / 1024 < DIRECT_BLOCKS
    requires Prepares(fs.v, fs.nodes, i, pos / 1024, p) && pos % 1024 + |chunk| <= 1024
    ensures Wrote(fs, i, fs.With(i, StoreChunk(p, pos / 1024, pos % 1024, chunk), p.inode), pos, chunk)
    ensures InodesSame(fs.v, StoreChunk(p, pos / 1024, pos % 1024, chunk))
  {
    var fb, content := pos / 1024, PutBytes(p.buf, pos % 1024, chunk);
    var fs' := fs.With(i, StoreChunk(p, fb, pos % 1024, chunk), p.inode);
    StoreKeeps(p.v, fs'.nodes, i, fb, content);
    forall j, q: nat | 0 <= j < |fs.nodes| && j != i ensures fs'.At(j, q) == fs.At(j, q) {
      StoreBytes(p.v, fs'.nodes, i, fb, content, j, q);
    }
    forall q: nat | q < FILE_SPAN
      ensures fs'.At(i, q) == if pos <= q < pos + |chunk| then chunk[q - pos] else fs.At(i, q)
    {
      StoreBytes(p.v, fs'.nodes, i, fb, content, i, q);
      InBlock(pos, |chunk|, q);
      if pos <= q < pos + |chunk| {
        assert content[pos % 1024..pos % 1024 + |chunk|][q - pos] == chunk[q - pos];
      }
    }
  }

  lemma InBlock(pos: nat, n: nat, q: nat)
    requires pos % 1024 + n <= 1024 && q < FILE_SPAN
    ensures (q / 1024) % U32 == q / 1024
    ensures pos <= q < pos + n <==> q / 1024 == pos / 1024 && pos % 1024 <= q % 1024 < pos % 1024 + n
    ensures pos <= q < pos + n ==> q - pos == q % 1024 - pos % 1024
  {
  }

  /** Two writes end to end are one. */
  lemma WroteTrans(fs: Files, i: nat, mid: Files, end: Files, lo: nat, a: seq<Byte>, b: seq<Byte>)
    requires i < |fs.nodes| && Wrote(fs, i, mid, lo, a) && Wrote(mid, i, end, lo + |a|, b)
    ensures Wrote(fs, i, end, lo, a + b)
  {
  }

  lemma WroteNothing(fs: Files, i: nat, lo: nat)
    requires Intact(fs) && i < |fs.nodes|
    ensures Wrote(fs, i, fs, lo, [])
  {
  }

  lemma PrepareEffect(v: Vol, nodes: seq<Node>, i: nat, fb: nat)
    requires Formatted(v) && Owned(v, nodes) && i < |nodes| && fb < DIRECT_BLOCKS
    requires PrepareBlock(v, nodes[i].inode, fb).Some?
    ensures Prepares(v, nodes, i, fb, PrepareBlock(v, nodes[i].inode, fb).value)
  {
    if Ptr(nodes[i].inode, fb) == 0 { PrepareFresh(v, nodes, i, fb); } else { PrepareKept(v, nodes, i, fb); }
  }

  lemma TurnEffect(fs: Files, i: nat, pos: nat, chunk: seq<Byte>)
    requires Intact(fs) && i < |fs.nodes| && |fs.nodes[i].inode| == INODE_BYTES && pos / 1024 < DIRECT_BLOCKS
    requires pos % 1024 + |chunk| <= 1024 && PrepareBlock(fs.v, fs.nodes[i].inode, pos / 1024).Some?
    ensures var p := PrepareBlock(fs.v, fs.nodes[i].inode, pos / 1024).value;
            && Wrote(fs, i, fs.With(i, StoreChunk(p, pos / 1024, pos % 1024, chunk), p.inode), pos, chunk)
            && InodesSame(fs.v, StoreChunk(p, pos / 1024, pos % 1024, chunk))
  {
    PrepareEffect(fs.v, fs.nodes, i, pos / 1024);
    ChunkEffect(fs, i, pos, chunk, PrepareBlock(fs.v, fs.nodes[i].inode, pos / 1024).value);
  }

  /** Updating the size and storing the inode changes no byte of any file. */
  lemma SizeEffect(fs: Files, i: nat, size: nat, lo: nat)
    requires Intact(fs) && i < |fs.nodes| && size < U32
    ensures |fs.nodes[i].inode| == INODE_BYTES
    ensures var inode := WithSize(fs.nodes[i].inode, size);
            var w := WriteInode(fs.v, fs.nodes[i].ino, inode);
            Wrote(fs, i, fs.With(i, w, inode), lo, []) && ReadInode(w, fs.nodes[i].ino) == Some(inode)
  {
    var v, nodes, ino := fs.v, fs.nodes, fs.nodes[i].ino;
    var inode := WithSize(nodes[i].inode, size);
    var w := WriteInode(v, ino, inode);
    WithSizeFields(nodes[i].inode, size);
    WriteInodeKeeps(v, ino, inode);
    InodeRoundTrip(v, ino, inode);
    InodeInTable(v, ino);
    SameMetadata(v, w);
    TakeKeepsFormatted(v, w);
    MetadataWrite(v, w, nodes);
    ResizeKeeps(w, nodes, i, inode);
  }

  lemma ResizeKeeps(v: Vol, nodes: seq<Node>, i: nat, inode: seq<Byte>)
    requires v.sb.blocksPerGroup > 0 && Owned(v, nodes) && i < |nodes| && |inode| == INODE_BYTES
    requires forall k: nat :: k < 15 ==> Ptr(inode, k) == Ptr(nodes[i].inode, k)
    ensures Owned(v, nodes[i := nodes[i].(inode := inode)])
    ensures forall pos: nat :: ByteAt(v.disk, inode, pos) == ByteAt(v.disk, nodes[i].inode, pos)
  {
    forall slot | SlotOk(slot) ensures BlockAt(v.disk, inode, slot) == BlockAt(v.disk, nodes[i].inode, slot) {}
    forall pos: nat ensures ByteAt(v.disk, inode, pos) == ByteAt(v.disk, nodes[i].inode, pos) {
      TreeGivesFileBlocks(v.disk, v.disk, nodes[i].inode, inode, (pos / 1024) % U32);
    }
  }
}
