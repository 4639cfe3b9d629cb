/**
 Whole reads and writes of ext2 files (kernel/fs/ext2/ext2.c): the loops over
 blocks, the update of the size, and what a caller can rely on afterwards.
 */
module Ext2ReadWrite {
  import opened Bytes
  import opened Options
  import opened Ext2Volume
  import opened Ext2Files

  // What a caller sees

  function NewSize(size: nat, offset: nat, n: nat): nat {
    if offset + n > size then (offset + n) % U32 else size
  }

  lemma ReadIs(disk: seq<seq<Byte>>, inode: seq<Byte>, offset: nat, bytes: seq<Byte>)
    requires ReadCount(Size(inode), offset, |bytes|) == |bytes|
    requires forall pos: nat :: offset <= pos < offset + |bytes| ==> ByteAt(disk, inode, pos) == bytes[pos - offset]
    ensures ReadFile(disk, inode, offset, |bytes|) == bytes
  {
  }

  lemma SameRead(disk: seq<seq<Byte>>, inode: seq<Byte>, disk': seq<seq<Byte>>, inode': seq<Byte>, o: nat, m: nat)
    requires ReadCount(Size(inode'), o, m) == ReadCount(Size(inode), o, m)
    requires forall pos: nat :: o <= pos < o + ReadCount(Size(inode), o, m) ==>
                                  ByteAt(disk', inode', pos) == ByteAt(disk, inode, pos)
    ensures ReadFile(disk', inode', o, m) == ReadFile(disk, inode, o, m)
  {
    var r, r' := ReadFile(disk, inode, o, m), ReadFile(disk', inode', o, m);
    assert |r| == |r'|;
    assert forall k :: 0 <= k < |r| ==> r'[k] == r[k];
  }

  lemma CountWritten(size: nat, offset: nat, n: nat)
    requires size < U32 && n > 0 && offset % FILE_SPAN + n <= 12288
    ensures ReadCount(NewSize(size, offset, n), offset, n) == if offset < FILE_SPAN then n else 0
  {
  }

  /** The new size is below the old one: the sum wrapped past 2^32. */
  predicate Shrinks(size: nat, offset: nat, n: nat) {
    (offset + n) % U32 < size < offset + n
  }

  lemma CountKept(size: nat, offset: nat, n: nat, o: nat, m: nat)
    requires size < U32 && !Shrinks(size, offset, n) && o + m <= size
    ensures ReadCount(NewSize(size, offset, n), o, m) == ReadCount(size, o, m) == m
  {
  }

  /** When a write shrinks a file, the last byte lies outside the write and past the new end. */
  lemma LastByteLost(size: nat, offset: nat, n: nat)
    requires size < U32 && Shrinks(size, offset, n) && (n > 0 ==> offset % FILE_SPAN + n <= 12288)
    ensures size > 0 && ReadCount(size, size - 1, 1) == 1 && ReadCount(NewSize(size, offset, n), size - 1, 1) == 0
    ensures n > 0 ==> offset % FILE_SPAN + n <= size - 1
  {
    if n > 0 {
      var q, lo := offset / FILE_SPAN, offset % FILE_SPAN;
      assert offset + n == q * 1024 * U32 + (lo + n);
    }
  }

  lemma WroteLength(fs: Files, i: nat, fs': Files, lo: nat, bytes: seq<Byte>)
    requires i < |fs.nodes| && Wrote(fs, i, fs', lo, bytes)
    ensures |fs'.nodes| == |fs.nodes|
  {
  }

  lemma SizeRange(inode: seq<Byte>)
    ensures Size(inode) < U32
  {
    WordRange(inode, 4);
  }

  /** Bytes written read back exactly when the offset is below the span that 32-bit block numbers can tell apart. */
  lemma ReadsBack(fs: Files, i: nat, fs': Files, offset: nat, bytes: seq<Byte>)
    requires i < |fs.nodes| && Wrote(fs, i, fs', offset % FILE_SPAN, bytes) && |bytes| > 0
    requires offset % FILE_SPAN + |bytes| <= 12288
    requires Size(fs'.nodes[i].inode) == NewSize(Size(fs.nodes[i].inode), offset, |bytes|)
    ensures ReadFile(fs'.v.disk, fs'.nodes[i].inode, offset, |bytes|) == bytes <==> offset < FILE_SPAN
  {
    hide Wrote, ReadFile, ReadCount, NewSize, Size, ByteAt;
    SizeRange(fs.nodes[i].inode);
    WroteLength(fs, i, fs', offset % FILE_SPAN, bytes);
    CountWritten(Size(fs.nodes[i].inode), offset, |bytes|);
    if offset < FILE_SPAN {
      WrittenBytes(fs, i, fs', offset % FILE_SPAN, bytes);
      ReadIs(fs'.v.disk, fs'.nodes[i].inode, offset % FILE_SPAN, bytes);
      assert offset % FILE_SPAN == offset;
    } else {
      ReadNothing(fs'.v.disk, fs'.nodes[i].inode, offset, bytes);
    }
  }

  lemma ReadNothing(disk: seq<seq<Byte>>, inode: seq<Byte>, offset: nat, bytes: seq<Byte>)
    requires ReadCount(Size(inode), offset, |bytes|) == 0 && |bytes| > 0
    ensures ReadFile(disk, inode, offset, |bytes|) != bytes
  {
    assert |ReadFile(disk, inode, offset, |bytes|)| == 0;
  }

  lemma WrittenBytes(fs: Files, i: nat, fs': Files, lo: nat, bytes: seq<Byte>)
    requires i < |fs.nodes| && Wrote(fs, i, fs', lo, bytes) && lo + |bytes| <= FILE_SPAN
    ensures i < |fs'.nodes|
    ensures forall pos: nat :: lo <= pos < lo + |bytes| ==>
            ByteAt(fs'.v.disk, fs'.nodes[i].inode, pos) == bytes[pos - lo]
  {
    forall pos: nat | lo <= pos < lo + |bytes| ensures ByteAt(fs'.v.disk, fs'.nodes[i].inode, pos) == bytes[pos - lo] {
      assert fs'.At(i, pos) == bytes[pos - lo];
    }
  }

  /** Every range of the old file outside the `n` bytes at `lo` reads the same. */
  ghost predicate RestKept(disk: seq<seq<Byte>>, inode: seq<Byte>, disk': seq<seq<Byte>>, inode': seq<Byte>,
                           lo: nat, n: nat)
  {
    forall o: nat, m: nat :: o + m <= Size(inode) && (o + m <= lo || lo + n <= o) ==>
                               ReadFile(disk', inode', o, m) == ReadFile(disk, inode, o, m)
  }

  /** What was in the file and is not overwritten reads the same exactly when the size did not wrap past 2^32. */
  lemma RestReadsSame(fs: Files, i: nat, fs': Files, offset: nat, bytes: seq<Byte>)
    requires i < |fs.nodes| && Wrote(fs, i, fs', offset % FILE_SPAN, bytes)
    requires |bytes| > 0 ==> offset % FILE_SPAN + |bytes| <= 12288
    requires Size(fs'.nodes[i].inode) == NewSize(Size(fs.nodes[i].inode), offset, |bytes|)
    ensures RestKept(fs.v.disk, fs.nodes[i].inode, fs'.v.disk, fs'.nodes[i].inode, offset % FILE_SPAN, |bytes|) <==>
            offset + |bytes| <= Size(fs.nodes[i].inode) || (offset + |bytes|) % U32 >= Size(fs.nodes[i].inode)
  {
    hide Wrote, ReadFile, ReadCount, NewSize, Size, ByteAt;
    var inode, lo, n := fs.nodes[i].inode, offset % FILE_SPAN, |bytes|;
    SizeRange(inode);
    WroteLength(fs, i, fs', lo, bytes);
    if Shrinks(Size(inode), offset, n) {
      LastByteLost(Size(inode), offset, n);
      OtherLengths(fs.v.disk, inode, fs'.v.disk, fs'.nodes[i].inode, Size(inode) - 1, 1);
    } else {
      forall o: nat, m: nat | o + m <= Size(inode) && (o + m <= lo || lo + n <= o)
        ensures ReadFile(fs'.v.disk, fs'.nodes[i].inode, o, m) == ReadFile(fs.v.disk, inode, o, m)
      {
        CountKept(Size(inode), offset, n, o, m);
        RestBytes(fs, i, fs', lo, bytes, o, m);
        SameRead(fs.v.disk, inode, fs'.v.disk, fs'.nodes[i].inode, o, m);
      }
    }
  }

  lemma RestBytes(fs: Files, i: nat, fs': Files, lo: nat, bytes: seq<Byte>, o: nat, m: nat)
    requires i < |fs.nodes| == |fs'.nodes| && Wrote(fs, i, fs', lo, bytes) && o + m <= FILE_SPAN
    requires o + m <= lo || lo + |bytes| <= o
    ensures forall pos: nat :: o <= pos < o + m ==>
                                 ByteAt(fs'.v.disk, fs'.nodes[i].inode, pos) ==
                                   ByteAt(fs.v.disk, fs.nodes[i].inode, pos)
  {
    forall pos: nat | o <= pos < o + m
      ensures ByteAt(fs'.v.disk, fs'.nodes[i].inode, pos) == ByteAt(fs.v.disk, fs.nodes[i].inode, pos)
    {
      assert fs'.At(i, pos) == fs.At(i, pos);
    }
  }

  lemma OtherLengths(disk: seq<seq<Byte>>, inode: seq<Byte>, disk': seq<seq<Byte>>, inode': seq<Byte>, o: nat, m: nat)
    requires ReadCount(Size(inode'), o, m) != ReadCount(Size(inode), o, m)
    ensures ReadFile(disk', inode', o, m) != ReadFile(disk, inode, o, m)
  {
    assert |ReadFile(disk', inode', o, m)| != |ReadFile(disk, inode, o, m)|;
  }

  /** Every other file reads the same, whatever is asked of it. */
  lemma OtherFilesReadSame(fs: Files, i: nat, fs': Files, lo: nat, bytes: seq<Byte>, j: nat, o: nat, m: nat)
    requires i < |fs.nodes| && Wrote(fs, i, fs', lo, bytes) && j < |fs.nodes| && j != i
    ensures ReadFile(fs'.v.disk, fs'.nodes[j].inode, o, m) == ReadFile(fs.v.disk, fs.nodes[j].inode, o, m)
  {
    forall pos: nat
      ensures ByteAt(fs'.v.disk, fs'.nodes[j].inode, pos) == ByteAt(fs.v.disk, fs.nodes[j].inode, pos)
    {
      assert fs'.At(j, pos) == fs.At(j, pos);
    }
    SameRead(fs.v.disk, fs.nodes[j].inode, fs'.v.disk, fs'.nodes[j].inode, o, m);
  }

  /** Positions 2^42 apart are the same byte of the file: the block number is cut to 32 bits. */
  lemma PositionsFold(disk: seq<seq<Byte>>, inode: seq<Byte>, pos: nat)
    ensures (pos / 1024) % U32 == (pos % FILE_SPAN) / 1024 && pos % 1024 == (pos % FILE_SPAN) % 1024
    ensures ByteAt(disk, inode, pos) == ByteAt(disk, inode, pos % FILE_SPAN)
  {
    PositionParts(pos, pos / FILE_SPAN, pos % FILE_SPAN);
    PositionParts(pos % FILE_SPAN, 0, pos % FILE_SPAN);
  }

  lemma PositionParts(pos: nat, q: nat, r: nat)
    requires pos == q * FILE_SPAN + r && r < FILE_SPAN
    ensures pos % FILE_SPAN == r && (pos / 1024) % U32 == r / 1024 && pos % 1024 == r % 1024
  {
    assert pos / 1024 == q * U32 + r / 1024;
  }

  // One turn of the write loop

  function Chunk(pos: nat, rest: nat): (n: nat)
    ensures n <= rest && pos % 1024 + n <= 1024
    ensures rest > 0 ==> n > 0
  {
    if 1024 - pos % 1024 > rest then rest else 1024 - pos % 1024
  }

  /** A write can go no further at block `fb`: past the direct blocks, or a hole and no block left to fill it. */
  ghost predicate Stuck(v: Vol, inode: seq<Byte>, fb: nat) {
    fb < DIRECT_BLOCKS ==> Ptr(inode, fb) == 0 && forall g: nat :: g < |v.groups| ==> v.FreeCount(BlockKind, g) == 0
  }

  /** One turn of the loop on values: the chunk goes to offset `at` of block `fb`. */
  function Turn(fs: Files, i: nat, fb: nat, at: nat, chunk: seq<Byte>): (Files, bool)
    requires i < |fs.nodes| && |fs.nodes[i].inode| == INODE_BYTES
  {
    if fb >= DIRECT_BLOCKS then (fs, false)
    else match PrepareBlock(fs.v, fs.nodes[i].inode, fb)
      case None => (fs, false)
      case Some(p) => (fs.With(i, StoreChunk(p, fb, at, chunk), p.inode), true)
  }

  /** What one turn does to the inode in memory: nothing, or a hole becomes a block. */
  predicate OnlyFills(inode: seq<Byte>, inode': seq<Byte>, fb: nat) {
    && Size(inode') == Size(inode)
    && (forall k: nat :: k < 15 && k != fb ==> Ptr(inode', k) == Ptr(inode, k))
    && Ptr(inode', fb) != 0 && (Ptr(inode, fb) != 0 ==> inode' == inode) && Charged(inode, inode')
  }

  /** A turn that went through: the chunk is at `lo` and the block it lies in is no hole. */
  ghost predicate Turned(fs: Files, i: nat, fs': Files, lo: nat, chunk: seq<Byte>)
    requires i < |fs.nodes|
  {
    && lo / 1024 < DIRECT_BLOCKS && Wrote(fs, i, fs', lo, chunk) && InodesSame(fs.v, fs'.v)
    && OnlyFills(fs.nodes[i].inode, fs'.nodes[i].inode, lo / 1024)
  }

  lemma TurnGoes(fs: Files, i: nat, lo: nat, chunk: seq<Byte>)
    requires Intact(fs) && i < |fs.nodes| && |fs.nodes[i].inode| == INODE_BYTES && lo % 1024 + |chunk| <= 1024
    requires Turn(fs, i, lo / 1024, lo % 1024, chunk).1
    ensures Turned(fs, i, Turn(fs, i, lo / 1024, lo % 1024, chunk).0, lo, chunk)
  {
    TurnEffect(fs, i, lo, chunk);
    PrepareInode(fs, i, lo / 1024);
  }

  lemma TurnStops(fs: Files, i: nat, fb: nat, at: nat, chunk: seq<Byte>)
    requires Intact(fs) && i < |fs.nodes| && |fs.nodes[i].inode| == INODE_BYTES && !Turn(fs, i, fb, at, chunk).1
    ensures Turn(fs, i, fb, at, chunk).0 == fs && Stuck(fs.v, fs.nodes[i].inode, fb)
  {
    if fb < DIRECT_BLOCKS { AllocEffect(fs.v, BlockKind); }
  }

  lemma InodeLength(fs: Files, i: nat)
    requires Intact(fs) && i < |fs.nodes|
    ensures |fs.nodes[i].inode| == INODE_BYTES && Sized(fs.v)
    ensures forall fb: nat :: fb < DIRECT_BLOCKS && Ptr(fs.nodes[i].inode, fb) != 0 ==>
            Ptr(fs.nodes[i].inode, fb) < |fs.v.disk|
  {
    forall fb: nat | fb < DIRECT_BLOCKS && Ptr(fs.nodes[i].inode, fb) != 0
      ensures Ptr(fs.nodes[i].inode, fb) < |fs.v.disk|
    {
      assert SlotOk(Direct(fb)) && BlockAt(fs.v.disk, fs.nodes[i].inode, Direct(fb)) == Ptr(fs.nodes[i].inode, fb);
    }
  }

  lemma PrepareInode(fs: Files, i: nat, fb: nat)
    requires Intact(fs) && i < |fs.nodes| && |fs.nodes[i].inode| == INODE_BYTES && fb < DIRECT_BLOCKS
    requires PrepareBlock(fs.v, fs.nodes[i].inode, fb).Some?
    ensures var p := PrepareBlock(fs.v, fs.nodes[i].inode, fb).value;
            OnlyFills(fs.nodes[i].inode, p.inode, fb) && Ptr(p.inode, fb) < |p.v.disk| && |p.buf| == BLOCK_SIZE
  {
    var v, inode := fs.v, fs.nodes[i].inode;
    InodeLength(fs, i);
    if Ptr(inode, fb) == 0 {
      var (g, b) := FindFree(v, BlockKind, 0).value;
      TakeBitmaps(v, BlockKind, g, b);
      assert Number(v, BlockKind, g, b) < |v.disk|;
      WithPtrFields(inode, fb, Number(v, BlockKind, g, b));
      WithPtrCharged(inode, fb, Number(v, BlockKind, g, b));
    } else {
      ChargedSelf(inode);
    }
  }

  /** Every block a file resolves to can be read whole. */
  lemma BlockReadable(fs: Files, i: nat, fb: nat)
    requires Intact(fs) && i < |fs.nodes|
    ensures Sized(fs.v)
    ensures var b := FileBlock(fs.v.disk, fs.nodes[i].inode, fb);
            b != 0 ==> b < |fs.v.disk| && |fs.v.disk[b]| == BLOCK_SIZE
  {
    if SlotOf(fb).Some? {
      var b := BlockAt(fs.v.disk, fs.nodes[i].inode, SlotOf(fb).value);
      assert b != 0 ==> IsData(fs.v, b);
    }
  }

  // The whole write

  /** Block `fb` of the file is a hole among the `n` bytes from `lo`. */
  predicate HoleIn(inode: seq<Byte>, lo: nat, n: nat, fb: nat) {
    n > 0 && fb < DIRECT_BLOCKS && lo / 1024 <= fb && fb * 1024 < lo + n && Ptr(inode, fb) == 0
  }

  /** The holes of the range have blocks, and no other pointer changed. */
  ghost predicate HolesFilled(inode: seq<Byte>, inode': seq<Byte>, lo: nat, n: nat) {
    forall k: nat :: k < 15 ==> if HoleIn(inode, lo, n, k) then Ptr(inode', k) != 0 else Ptr(inode', k) == Ptr(inode, k)
  }

  ghost predicate Filled(inode: seq<Byte>, inode': seq<Byte>, lo: nat, n: nat) {
    && Size(inode') == Size(inode) && HolesFilled(inode, inode', lo, n) && Charged(inode, inode')
    && ((forall fb: nat :: !HoleIn(inode, lo, n, fb)) ==> inode' == inode)
  }

  /** Part of a write is done: the bytes so far, and blocks in place of the holes they fell in. */
  ghost predicate Progress(fs: Files, i: nat, fs': Files, lo: nat, bytes: seq<Byte>)
    requires i < |fs.nodes|
  {
    && Wrote(fs, i, fs', lo, bytes) && (|bytes| > 0 ==> lo + |bytes| <= 12288) && InodesSame(fs.v, fs'.v)
    && Filled(fs.nodes[i].inode, fs'.nodes[i].inode, lo, |bytes|)
  }

  lemma NoProgress(fs: Files, i: nat, lo: nat)
    requires Intact(fs) && i < |fs.nodes|
    ensures Progress(fs, i, fs, lo, [])
  {
    WroteNothing(fs, i, lo);
    ChargedSelf(fs.nodes[i].inode);
    assert forall fb: nat :: !HoleIn(fs.nodes[i].inode, lo, 0, fb);
  }

  lemma ProgressFacts(fs: Files, i: nat, fs': Files, lo: nat, bytes: seq<Byte>)
    requires i < |fs.nodes| && Progress(fs, i, fs', lo, bytes)
    ensures |fs'.nodes| == |fs.nodes|
    ensures i < |fs'.nodes| && Intact(fs') && |fs'.nodes[i].inode| == INODE_BYTES
  {
    InodeLength(fs', i);
  }

  lemma ProgressStep(fs: Files, i: nat, mid: Files, fs': Files, lo: nat, a: seq<Byte>, b: seq<Byte>)
    requires i < |fs.nodes| && |b| > 0 && (lo + |a|) % 1024 + |b| <= 1024
    requires Progress(fs, i, mid, lo, a) && Turned(mid, i, fs', lo + |a|, b)
    ensures Progress(fs, i, fs', lo, a + b)
  {
    hide Wrote, Filled, OnlyFills;
    ProgressFacts(fs, i, mid, lo, a);
    BlockEnd(lo + |a|, |b|);
    WroteTrans(fs, i, mid, fs', lo, a, b);
    FilledStep(fs.nodes[i].inode, mid.nodes[i].inode, fs'.nodes[i].inode, lo, |a|, |b|);
  }

  lemma BlockEnd(pos: nat, size: nat)
    requires pos / 1024 < 12 && pos % 1024 + size <= 1024
    ensures pos + size <= 12288
  {
  }

  lemma FilledStep(inode: seq<Byte>, mid: seq<Byte>, inode': seq<Byte>, lo: nat, n: nat, size: nat)
    requires Filled(inode, mid, lo, n) && size > 0 && (lo + n) % 1024 + size <= 1024 && lo + n + size <= 12288
    requires OnlyFills(mid, inode', (lo + n) / 1024)
    ensures Filled(inode, inode', lo, n + size)
  {
    hide Charged;
    var fb := (lo + n) / 1024;
    ChargedTrans(inode, mid, inode');
    forall k: nat
      ensures HoleIn(inode, lo, n + size, k) <==> HoleIn(inode, lo, n, k) || (k == fb && Ptr(inode, k) == 0) {}
  }

  lemma SliceJoin(s: seq<Byte>, a: nat, b: nat, c: nat)
    requires a <= b <= c <= |s|
    ensures s[a..b] + s[b..c] == s[a..c]
  {
  }

  /** Where a chunk goes, once the position is cut to the file's span. */
  lemma ChunkPlace(offset: nat, n: nat)
    requires n > 0 ==> offset % FILE_SPAN + n <= 12288
    ensures var lo := offset % FILE_SPAN + n;
            ((offset + n) / 1024) % U32 == lo / 1024 && (offset + n) % 1024 == lo % 1024
  {
    PositionParts(offset + n, offset / FILE_SPAN, offset % FILE_SPAN + n);
  }

  /** One turn takes the write further, or shows it stuck. */
  lemma TurnStep(start: Files, i: nat, fs: Files, lo: nat, a: seq<Byte>, b: seq<Byte>, pos: nat)
    requires i < |start.nodes| && |b| > 0 && pos == lo + |a| && pos % 1024 + |b| <= 1024
    requires Progress(start, i, fs, lo, a)
    ensures i < |fs.nodes| && Intact(fs) && |fs.nodes[i].inode| == INODE_BYTES
    ensures var (fs', ok) := Turn(fs, i, pos / 1024, pos % 1024, b);
            if ok then Progress(start, i, fs', lo, a + b) && pos + |b| <= 12288
            else fs' == fs && Stuck(fs.v, fs.nodes[i].inode, pos / 1024)
  {
    hide Progress, Turned, Stuck, Intact;
    ProgressFacts(start, i, fs, lo, a);
    var (fs', ok) := Turn(fs, i, pos / 1024, pos % 1024, b);
    if ok {
      TurnGoes(fs, i, pos, b);
      BlockEnd(pos, |b|);
      ProgressStep(start, i, fs, fs', lo, a, b);
    } else {
      TurnStops(fs, i, pos / 1024, pos % 1024, b);
    }
  }

  /** The end of the write: a longer size goes into the inode, in memory and on disk. */
  function Grow(fs: Files, i: nat, size: nat): Files
    requires i < |fs.nodes| && |fs.nodes[i].inode| == INODE_BYTES
  {
    var inode := WithSize(fs.nodes[i].inode, size);
    fs.With(i, WriteInode(fs.v, fs.nodes[i].ino, inode), inode)
  }

  /** The inode on disk is the one in memory. */
  predicate Saved(fs: Files, i: nat)
    requires i < |fs.nodes|
  {
    ReadInode(fs.v, fs.nodes[i].ino) == Some(fs.nodes[i].inode)
  }

  /**
   A whole write of `bytes` at `lo`, after which the file has the given size. The last clause is about
   the inode on disk: it is the one in memory exactly when the file grew or no hole was filled.
   */
  ghost predicate Written(fs: Files, i: nat, fs': Files, lo: nat, bytes: seq<Byte>, size: nat, grew: bool)
    requires i < |fs.nodes|
  {
    && Wrote(fs, i, fs', lo, bytes) && (|bytes| > 0 ==> lo + |bytes| <= 12288) && Size(fs'.nodes[i].inode) == size
    && HolesFilled(fs.nodes[i].inode, fs'.nodes[i].inode, lo, |bytes|)
    && Charged(fs.nodes[i].inode, fs'.nodes[i].inode)
    && (Saved(fs, i) ==> (Saved(fs', i) <==> grew || forall fb: nat :: !HoleIn(fs.nodes[i].inode, lo, |bytes|, fb)))
  }

  /** What a write leaves behind reads back as `ReadsBack` says. */
  lemma WrittenReadsBack(fs: Files, i: nat, fs': Files, offset: nat, bytes: seq<Byte>, grew: bool)
    requires i < |fs.nodes| && |bytes| > 0
    requires Written(fs, i, fs', offset % FILE_SPAN, bytes, NewSize(Size(fs.nodes[i].inode), offset, |bytes|), grew)
    ensures i < |fs'.nodes|
    ensures ReadFile(fs'.v.disk, fs'.nodes[i].inode, offset, |bytes|) == bytes <==> offset < FILE_SPAN
  {
    hide Wrote, Saved, ReadFile, HoleIn, NewSize;
    WroteLength(fs, i, fs', offset % FILE_SPAN, bytes);
    ReadsBack(fs, i, fs', offset, bytes);
  }

  lemma WrittenKeepsRest(fs: Files, i: nat, fs': Files, offset: nat, bytes: seq<Byte>, grew: bool)
    requires i < |fs.nodes|
    requires Written(fs, i, fs', offset % FILE_SPAN, bytes, NewSize(Size(fs.nodes[i].inode), offset, |bytes|), grew)
    ensures i < |fs'.nodes|
    ensures RestKept(fs.v.disk, fs.nodes[i].inode, fs'.v.disk, fs'.nodes[i].inode, offset % FILE_SPAN, |bytes|) <==>
            offset + |bytes| <= Size(fs.nodes[i].inode) || (offset + |bytes|) % U32 >= Size(fs.nodes[i].inode)
  {
    hide Wrote, Saved, RestKept, HoleIn, NewSize;
    WroteLength(fs, i, fs', offset % FILE_SPAN, bytes);
    RestReadsSame(fs, i, fs', offset, bytes);
  }

  /** Any write at 2^32 writes nothing and empties the file: nothing is left to read. */
  lemma WriteAt4GEmpties(fs: Files, i: nat, fs': Files, bytes: seq<Byte>, grew: bool, o: nat, m: nat)
    requires i < |fs.nodes|
    requires Written(fs, i, fs', U32 % FILE_SPAN, bytes, NewSize(Size(fs.nodes[i].inode), U32, |bytes|), grew)
    ensures bytes == [] && i < |fs'.nodes| && Size(fs'.nodes[i].inode) == 0
    ensures ReadFile(fs'.v.disk, fs'.nodes[i].inode, o, m) == []
  {
    hide Wrote, Saved, HoleIn, Size, ByteAt;
    SizeRange(fs.nodes[i].inode);
    WroteLength(fs, i, fs', U32 % FILE_SPAN, bytes);
  }

  lemma GrownInode(inode: seq<Byte>, mid: seq<Byte>, lo: nat, n: nat, size: nat)
    requires Filled(inode, mid, lo, n) && |mid| == INODE_BYTES && size < U32
    ensures var r := WithSize(mid, size); HolesFilled(inode, r, lo, n) && Charged(inode, r) && Size(r) == size
  {
    hide Sectors, InUse, Size, WithSize, Ptr, HoleIn;
    WithSizeFields(mid, size);
    WithSizeSectors(mid, size);
  }

  lemma GrowEffect(fs: Files, i: nat, mid: Files, lo: nat, bytes: seq<Byte>, size: nat)
    requires i < |fs.nodes| && Progress(fs, i, mid, lo, bytes) && |mid.nodes[i].inode| == INODE_BYTES && size < U32
    ensures Written(fs, i, Grow(mid, i, size), lo, bytes, size, true)
  {
    hide Charged, HoleIn, Size, Ptr, WithSize, WriteInode, ReadInode, Wrote;
    ProgressFacts(fs, i, mid, lo, bytes);
    GrownInode(fs.nodes[i].inode, mid.nodes[i].inode, lo, |bytes|, size);
    SizeEffect(mid, i, size, lo + |bytes|);
    WroteTrans(fs, i, mid, Grow(mid, i, size), lo, bytes, []);
    assert bytes + [] == bytes;
  }

  lemma NoGrowEffect(fs: Files, i: nat, mid: Files, lo: nat, bytes: seq<Byte>)
    requires i < |fs.nodes| && Progress(fs, i, mid, lo, bytes)
    ensures Written(fs, i, mid, lo, bytes, Size(fs.nodes[i].inode), false)
  {
    if fb: nat :| HoleIn(fs.nodes[i].inode, lo, |bytes|, fb) {
      assert Ptr(fs.nodes[i].inode, fb) == 0 && Ptr(mid.nodes[i].inode, fb) != 0;
    }
  }

  lemma StuckKept(fs: Files, i: nat, size: nat, fb: nat)
    requires i < |fs.nodes| && |fs.nodes[i].inode| == INODE_BYTES && Stuck(fs.v, fs.nodes[i].inode, fb) && size < U32
    ensures Stuck(Grow(fs, i, size).v, Grow(fs, i, size).nodes[i].inode, fb)
  {
    WithSizeFields(fs.nodes[i].inode, size);
    assert forall g: nat :: g < |fs.v.groups| ==>
           Grow(fs, i, size).v.FreeCount(BlockKind, g) == fs.v.FreeCount(BlockKind, g);
  }

  /** An allocation that returns zero has changed nothing. */
  lemma AllocZero(v: Vol)
    requires Sized(v)
    ensures Alloc(v, BlockKind).1 == 0 ==> Alloc(v, BlockKind).0 == v
  {
    hide FindFree, Take, Number;
    match FindFree(v, BlockKind, 0)
    case None =>
    case Some((g, b)) => NumberPositive(v, g, b);
  }

  lemma NumberPositive(v: Vol, g: nat, b: nat)
    requires v.sb.firstDataBlock > 0
    ensures Number(v, BlockKind, g, b) > 0
  {
    assert g * v.PerGroup(BlockKind) >= 0;
  }

  // The driver in place

  class OpenFile {
    const vol: Volume
    const ino: nat
    var inode: seq<Byte>

    constructor (vol: Volume, ino: nat, inode: seq<Byte>)
      ensures this.vol == vol && this.ino == ino && this.inode == inode
    {
      this.vol, this.ino, this.inode := vol, ino, inode;
    }

    /** The volume and the open files, this one being number `i`. */
    ghost function Now(nodes: seq<Node>, i: nat): (fs: Files)
      requires i < |nodes|
      reads this, vol, vol.disk, vol.groups
      ensures |fs.nodes| == |nodes|
    {
      Files(vol.View(), nodes[i := Node(ino, inode)])
    }

    /** `ext2_get_file_block` */
    method GetFileBlock(fb: nat) returns (b: nat)
      requires Sized(vol.View())
      ensures b == FileBlock(vol.disk[..], inode, fb)
    {
      if fb < 12 { return Ptr(inode, fb); }
      var n := fb - 12;
      if n < PTRS_PER_BLOCK {
        b := ReadPtr(Ptr(inode, 12), n);
        return;
      }
      n := n - PTRS_PER_BLOCK;
      if n < PTRS_PER_BLOCK * PTRS_PER_BLOCK {
        var second := ReadPtr(Ptr(inode, 13), n / PTRS_PER_BLOCK);
        b := ReadPtr(second, n % PTRS_PER_BLOCK);
        return;
      }
      return 0;
    }

    method ReadPtr(block: nat, j: nat) returns (b: nat)
      ensures b == PtrIn(vol.disk[..], block, j)
    {
      if block == 0 || block >= vol.disk.Length { return 0; }
      return Le(vol.disk[block], 4 * j, WORD);
    }

    /** `ext2_vfs_read` */
    method Read(offset: nat, size: nat, ghost nodes: seq<Node>, ghost i: nat) returns (out: seq<Byte>)
      requires i < |nodes| && Intact(Now(nodes, i))
      ensures out == ReadFile(vol.disk[..], inode, offset, size)
    {
      var n := ReadCount(Size(inode), offset, size);
      out := [];
      while |out| < n
        invariant |out| <= n
        invariant forall k :: 0 <= k < |out| ==> out[k] == ByteAt(vol.disk[..], inode, offset + k)
      {
        var part := ReadChunk(offset + |out|, n - |out|, nodes, i);
        out := out + part;
      }
    }

    /** One turn of the read loop. */
    method ReadChunk(pos: nat, rest: nat, ghost nodes: seq<Node>, ghost i: nat) returns (part: seq<Byte>)
      requires i < |nodes| && Intact(Now(nodes, i)) && rest > 0
      ensures 0 < |part| <= rest
      ensures forall k :: 0 <= k < |part| ==> part[k] == ByteAt(vol.disk[..], inode, pos + k)
    {
      var n, at := Chunk(pos, rest), pos % 1024;
      var b := GetFileBlock((pos / 1024) % U32);
      BlockReadable(Now(nodes, i), i, (pos / 1024) % U32);
      if b == 0 {
        part := seq(n, _ => 0);
      } else {
        part := vol.disk[b][at..at + n];
      }
      forall k | 0 <= k < n ensures part[k] == ByteAt(vol.disk[..], inode, pos + k) {
        assert (pos + k) / 1024 == pos / 1024 && (pos + k) % 1024 == at + k;
      }
    }

    /** The block of the file at `fb` in a buffer, allocated first if there was none. */
    method FetchBlock(fb: nat) returns (buf: Option<seq<Byte>>)
      requires Sized(vol.View()) && fb < DIRECT_BLOCKS && |inode| == INODE_BYTES
      requires Ptr(inode, fb) != 0 ==> Ptr(inode, fb) < vol.disk.Length
      modifies this, vol, vol.disk, vol.groups
      ensures match old(PrepareBlock(vol.View(), inode, fb))
              case None => buf == None && vol.View() == old(vol.View()) && inode == old(inode)
              case Some(p) => buf == Some(p.buf) && vol.View() == p.v && inode == p.inode
    {
      hide Alloc, WithPtr, Ptr, Sized;
      var block := Ptr(inode, fb);
      if block == 0 {
        var found := vol.AllocNumber(BlockKind);
        AllocZero(old(vol.View()));
        if found == 0 { return None; }
        inode := WithPtr(inode, fb, found);
        return Some(seq(BLOCK_SIZE, _ => 0));
      }
      return Some(vol.disk[block]);
    }

    method StoreBlock(fb: nat, at: nat, chunk: seq<Byte>, buf: seq<Byte>, ghost p: Prep)
      requires p.buf == buf && p.v == vol.View() && p.inode == inode && Ptr(inode, fb) < vol.disk.Length &&
               at + |chunk| <= |p.buf|
      modifies vol.disk
      ensures vol.View() == StoreChunk(p, fb, at, chunk)
    {
      vol.disk[Ptr(inode, fb)] := PutBytes(buf, at, chunk);
    }

    /** One turn of the write loop: false when it breaks off. */
    method WriteChunk(fb: nat, at: nat, chunk: seq<Byte>, ghost nodes: seq<Node>, ghost i: nat) returns (ok: bool)
      requires i < |nodes| && Intact(Now(nodes, i)) && at + |chunk| <= 1024 && |inode| == INODE_BYTES
      modifies this, vol, vol.disk, vol.groups
      ensures (Now(nodes, i), ok) == Turn(old(Now(nodes, i)), i, fb, at, chunk)
    {
      hide Intact, PrepareBlock, StoreChunk, OnlyFills;
      ghost var fs := Now(nodes, i);
      if fb >= DIRECT_BLOCKS { return false; }
      InodeLength(fs, i);
      var buf := FetchBlock(fb);
      if buf.None? { return false; }
      PrepareInode(fs, i, fb);
      StoreBlock(fb, at, chunk, buf.value, Prep(vol.View(), inode, buf.value));
      assert Now(nodes, i) == fs.With(i, vol.View(), inode);
      return true;
    }

    /** The same turn, seen as a step of a write that began in `start`. */
    method WriteTurn(fb: nat, at: nat, chunk: seq<Byte>, ghost start: Files, ghost lo: nat, ghost done: seq<Byte>,
                     ghost nodes: seq<Node>, ghost i: nat) returns (ok: bool)
      requires i < |nodes| == |start.nodes| && |chunk| > 0 && at + |chunk| <= 1024
      requires fb == (lo + |done|) / 1024 && at == (lo + |done|) % 1024 && Progress(start, i, Now(nodes, i), lo, done)
      modifies this, vol, vol.disk, vol.groups
      ensures ok ==> Progress(start, i, Now(nodes, i), lo, done + chunk) && lo + |done| + |chunk| <= 12288
      ensures !ok ==> Now(nodes, i) == old(Now(nodes, i)) && Stuck(vol.View(), inode, fb)
    {
      hide Progress, Turn, Stuck, Intact;
      TurnStep(start, i, Now(nodes, i), lo, done, chunk, lo + |done|);
      ok := WriteChunk(fb, at, chunk, nodes, i);
    }

    /** The loop of `ext2_vfs_write`. */
    method WriteChunks(offset: nat, data: seq<Byte>, ghost nodes: seq<Node>, ghost i: nat) returns (n: nat)
      requires i < |nodes| && Intact(Now(nodes, i)) && |inode| == INODE_BYTES
      modifies this, vol, vol.disk, vol.groups
      ensures n <= |data| && Progress(old(Now(nodes, i)), i, Now(nodes, i), offset % FILE_SPAN, data[..n])
      ensures n < |data| ==> Stuck(vol.View(), inode, ((offset + n) / 1024) % U32)
    {
      hide Progress, Stuck, Intact;
      ghost var start, lo := Now(nodes, i), offset % FILE_SPAN;
      n := 0;
      NoProgress(start, i, lo);
      while n < |data|
        invariant n <= |data| && (n > 0 ==> lo + n <= 12288) && Progress(start, i, Now(nodes, i), lo, data[..n])
      {
        ChunkPlace(offset, n);
        var size := Chunk(offset + n, |data| - n);
        SliceJoin(data, 0, n, n + size);
        var ok := WriteTurn(((offset + n) / 1024) % U32, (offset + n) % 1024, data[n..n + size], start, lo, data[..n],
                            nodes, i);
        if !ok { return; }
        n := n + size;
      }
    }

    /** `ext2_vfs_write` */
    method Write(offset: nat, data: seq<Byte>, ghost nodes: seq<Node>, ghost i: nat) returns (n: nat)
      requires i < |nodes| && Intact(Now(nodes, i)) && |inode| == INODE_BYTES
      modifies this, vol, vol.disk, vol.groups
      ensures n <= |data| && Written(old(Now(nodes, i)), i, Now(nodes, i), offset % FILE_SPAN, data[..n],
                                     NewSize(old(Size(inode)), offset, n), old(Size(inode)) < offset + n)
      ensures n < |data| ==> Stuck(vol.View(), inode, ((offset + n) / 1024) % U32)
      ensures n > 0 ==> (ReadFile(vol.disk[..], inode, offset, n) == data[..n] <==> offset < FILE_SPAN)
      ensures RestKept(old(vol.disk[..]), old(inode), vol.disk[..], inode, offset % FILE_SPAN, n) <==>
              offset + n <= old(Size(inode)) || (offset + n) % U32 >= old(Size(inode))
    {
      hide Written, ReadFile, Stuck, NewSize, Size, Intact, RestKept;
      n := WriteAndResize(offset, data, nodes, i);
      WrittenKeepsRest(old(Now(nodes, i)), i, Now(nodes, i), offset, data[..n], old(Size(inode)) < offset + n);
      if n > 0 {
        WrittenReadsBack(old(Now(nodes, i)), i, Now(nodes, i), offset, data[..n], old(Size(inode)) < offset + n);
      }
    }

    method WriteAndResize(offset: nat, data: seq<Byte>, ghost nodes: seq<Node>, ghost i: nat) returns (n: nat)
      requires i < |nodes| && Intact(Now(nodes, i)) && |inode| == INODE_BYTES
      modifies this, vol, vol.disk, vol.groups
      ensures n <= |data| && Written(old(Now(nodes, i)), i, Now(nodes, i), offset % FILE_SPAN, data[..n],
                                     NewSize(old(Size(inode)), offset, n), old(Size(inode)) < offset + n)
      ensures n < |data| ==> Stuck(vol.View(), inode, ((offset + n) / 1024) % U32)
    {
      ghost var start := Now(nodes, i);
      n := WriteChunks(offset, data, nodes, i);
      ghost var mid, lo := Now(nodes, i), offset % FILE_SPAN;
      InodeLength(mid, i);
      if offset + n > Size(inode) {
        GrowEffect(start, i, mid, lo, data[..n], (offset + n) % U32);
        if n < |data| { StuckKept(mid, i, (offset + n) % U32, ((offset + n) / 1024) % U32); }
        UpdateSize((offset + n) % U32, nodes, i);
      } else {
        NoGrowEffect(start, i, mid, lo, data[..n]);
      }
    }

    method UpdateSize(size: nat, ghost nodes: seq<Node>, ghost i: nat)
      requires i < |nodes| && Sized(vol.View()) && |inode| == INODE_BYTES
      modifies this, vol.disk
      ensures Now(nodes, i) == Grow(old(Now(nodes, i)), i, size)
    {
      ghost var fs := Now(nodes, i);
      inode := WithSize(inode, size);
      vol.StoreInode(ino, inode);
      assert Now(nodes, i) == fs.With(i, vol.View(), inode);
    }
  }

  /** No group has a free block. */
  ghost predicate Full(v: Vol) {
    forall g: nat :: g < |v.groups| ==> v.FreeCount(BlockKind, g) == 0
  }

  /**
   An empty file, one byte written at 1024 and then one at 0: unless the disk is full, the block of the second
   write is in the inode in memory and not in the one on disk.
   */
  method WriteBackwards(file: OpenFile, ghost nodes: seq<Node>, ghost i: nat)
    requires i < |nodes| && Intact(file.Now(nodes, i)) && |file.inode| == INODE_BYTES && Saved(file.Now(nodes, i), i)
    requires Size(file.inode) == 0 && Ptr(file.inode, 0) == 0
    modifies file, file.vol, file.vol.disk, file.vol.groups
    ensures !Saved(file.Now(nodes, i), i) || Full(file.vol.View())
  {
    hide Intact, Wrote, Saved, Size, Ptr, RestKept, ReadFile, NewSize;
    SizeAfter();
    ghost var fs := file.Now(nodes, i);
    var n := file.Write(1024, [7], nodes, i);
    if n == 0 { return; }
    ghost var mid := file.Now(nodes, i);
    WroteIntact(fs, i, mid, 1024, [7][..n]);
    assert !HoleIn(fs.nodes[i].inode, 1024, 1, 0) && Ptr(mid.nodes[i].inode, 0) == 0;
    n := file.Write(0, [7], nodes, i);
    assert n > 0 ==> HoleIn(mid.nodes[i].inode, 0, 1, 0);
  }

  lemma SizeAfter()
    ensures NewSize(0, 1024, 1) == 1025 && 1024 % FILE_SPAN == 1024 && 0 % FILE_SPAN == 0
    ensures (1024 + 0) / 1024 % U32 == 1 && (0 + 0) / 1024 % U32 == 0
  {
  }

  lemma WroteIntact(fs: Files, i: nat, fs': Files, lo: nat, bytes: seq<Byte>)
    requires i < |fs.nodes| && Wrote(fs, i, fs', lo, bytes)
    ensures Intact(fs') && i < |fs'.nodes| && |fs'.nodes[i].inode| == INODE_BYTES
  {
    InodeLength(fs', i);
  }
}
