/**
 `ext2_vfs_create` on a whole volume (kernel/fs/ext2/ext2.c): a fresh inode is
 marked and stored, and an entry for it goes into the first block of the
 directory, where `ext2_vfs_finddir` looks it up.
 */
module Ext2Create {
  import opened Arith
  import opened Bytes
  import opened Options
  import opened Ext2Volume
  import opened Ext2Files
  import opened Ext2Dir
  import opened Ext2ReadWrite

  // The new inode

  /** EXT2_S_IFREG with the permission bits of the mode, 0644 when there are none. */
  function FileMode(mode: int): nat { 0x8000 + if mode == 0 then 420 else mode % 512 }

  /** A zeroed inode with its mode and one link. */
  function NewInode(mode: int): (inode: seq<Byte>)
    ensures |inode| == INODE_BYTES
  {
    PutLe(PutLe(seq(INODE_BYTES, _ => 0), 0, HALF, FileMode(mode)), 26, HALF, 1)
  }

  /** A new file is empty and has no block; it is a regular file with the caller's permissions and one link. */
  lemma NewInodeFields(mode: int)
    ensures Size(NewInode(mode)) == 0 && forall k: nat :: k < 15 ==> Ptr(NewInode(mode), k) == 0
    ensures var m := Le(NewInode(mode), 0, HALF);
            m / 4096 == 8 && m % 4096 == if mode == 0 then 6 * 64 + 4 * 8 + 4 else mode % 512
    ensures Le(NewInode(mode), 26, HALF) == 1 && Le(NewInode(mode), 28, WORD) == 0
  {
    NewInodeWords(mode);
    ZeroWord(NewInode(mode), 28, WORD);
    ZeroWord(NewInode(mode), 4, WORD);
    forall k: nat | k < 15 ensures Ptr(NewInode(mode), k) == 0 { ZeroWord(NewInode(mode), 40 + 4 * k, WORD); }
  }

  lemma NewInodeWords(mode: int)
    ensures Le(NewInode(mode), 0, HALF) == FileMode(mode) && Le(NewInode(mode), 26, HALF) == 1
  {
    assert Pow256(2) == 65536;
    var zeros: seq<Byte> := seq(INODE_BYTES, _ => 0);
    PutLeReads(zeros, 0, HALF, FileMode(mode));
    PutLeReads(PutLe(zeros, 0, HALF, FileMode(mode)), 26, HALF, 1);
  }

  // The operation

  /** The directory inode after a first block was given to it: pointer, sectors and size. */
  function WithFirstBlock(inode: seq<Byte>, n: nat): (r: seq<Byte>)
    requires |inode| == INODE_BYTES
    ensures |r| == INODE_BYTES
  {
    WithSize(WithPtr(inode, 0, n), BLOCK_SIZE)
  }

  /** A directory's first block is charged for exactly when there was one to be had. */
  lemma FirstBlockCharged(inode: seq<Byte>, n: nat)
    requires |inode| == INODE_BYTES && n < U32 && Ptr(inode, 0) == 0
    ensures Charged(inode, WithFirstBlock(inode, n)) <==> n != 0
  {
    hide Sectors, InUse, Ptr, WithPtr, WithSize;
    WithPtrFields(inode, 0, n);
    WithPtrCharged(inode, 0, n);
    WithSizeSectors(WithPtr(inode, 0, n), BLOCK_SIZE);
  }

  /** A file that was new and then written, any number of times, has two sectors to the block. */
  lemma NewFileSectors(mode: int, inode: seq<Byte>)
    requires Charged(NewInode(mode), inode)
    ensures Sectors(inode) == 2 * InUse(inode, 15)
  {
    hide Ptr, NewInode, Size;
    NewInodeFields(mode);
    NoneInUse(NewInode(mode), 15);
    AtMost(inode, 15);
  }

  lemma {:induction false} NoneInUse(inode: seq<Byte>, n: nat)
    requires forall k: nat :: k < n ==> Ptr(inode, k) == 0
    ensures InUse(inode, n) == 0
  {
    hide Ptr;
    if n > 0 { NoneInUse(inode, n - 1); }
  }

  lemma {:induction false} AtMost(inode: seq<Byte>, n: nat)
    ensures InUse(inode, n) <= n
  {
    if n > 0 { AtMost(inode, n - 1); }
  }

  /** The first block of a directory, as far as the disk has it. */
  function FirstBlock(disk: seq<seq<Byte>>, inode: seq<Byte>): seq<Byte> {
    var b := FileBlock(disk, inode, 0);
    if 0 < b < |disk| then disk[b] else []
  }

  /**
   The entry part: a directory without a block gets one, which is neither cleared on disk nor
   filled; otherwise the entry is put into its first block.
   */
  function Enter(fs: Files, d: nat, ino: nat, name: seq<Byte>): Files
    requires d < |fs.nodes| && |fs.nodes[d].inode| == INODE_BYTES && Tiles(FirstBlock(fs.v.disk, fs.nodes[d].inode), 0)
  {
    var inode, b := fs.nodes[d].inode, FileBlock(fs.v.disk, fs.nodes[d].inode, 0);
    if b == 0 then
      var (y, n) := Alloc(fs.v, BlockKind);
      fs.With(d, WriteInode(y, fs.nodes[d].ino, WithFirstBlock(inode, n)), WithFirstBlock(inode, n))
    else if b < |fs.v.disk| then
      Files(fs.v.(disk := fs.v.disk[b := Insert(fs.v.disk[b], ino, name)]), fs.nodes)
    else fs
  }

  /** The inode part: a number, the inode in its table, and the new file among the open ones. */
  function AddInode(fs: Files, mode: int): (r: (Files, nat))
    ensures |r.0.nodes| == |fs.nodes| + (if r.1 == 0 then 0 else 1)
    ensures forall i :: 0 <= i < |fs.nodes| ==> r.0.nodes[i] == fs.nodes[i]
  {
    var (w, ino) := Alloc(fs.v, InodeKind);
    if ino == 0 then (fs, 0)
    else (Files(WriteInode(w, ino, NewInode(mode)), fs.nodes + [Node(ino, NewInode(mode))]), ino)
  }

  // The invariant

  /** The files are intact, their inodes are marked, and inode numbers fit 32 bits. */
  ghost predicate Live(fs: Files) {
    && Intact(fs) && |fs.v.groups| * fs.v.sb.inodesPerGroup < U32
    && forall i :: 0 <= i < |fs.nodes| ==> Used(fs.v, InodeKind, fs.nodes[i].ino)
  }

  lemma NumberInRange(v: Vol, g: nat, b: nat)
    requires Sized(v) && g < |v.groups| && b < v.sb.inodesPerGroup && |v.groups| * v.sb.inodesPerGroup < U32
    ensures var ino := Number(v, InodeKind, g, b); 0 < ino < U32 && HasInode(v, ino)
  {
    DivModOf(g, v.sb.inodesPerGroup, b);
    AtLeastAsMuch(|v.groups|, g + 1, v.sb.inodesPerGroup);
  }

  /** Taking a free inode touches no file. */
  lemma TakeInode(v: Vol, nodes: seq<Node>, g: nat, b: nat)
    requires Formatted(v) && Owned(v, nodes) && g < |v.groups| && v.FreeCount(InodeKind, g) > 0
    requires b < v.PerGroup(InodeKind) && !BitAt(v.Bitmap(InodeKind, g), b)
    ensures var w := Take(v, InodeKind, g, b);
            Formatted(w) && Owned(w, nodes) && FilesSame(v, nodes, w) && |w.groups| == |v.groups|
  {
    var w := Take(v, InodeKind, g, b);
    TakeKeepsMounted(v, InodeKind, g, b);
    TakeBitmaps(v, InodeKind, g, b);
    TakeUses(v, InodeKind, g, b);
    SameMetadata(v, w);
    TablesKept(v, w);
    MetadataWrite(v, w, nodes);
    TakeKeepsFormatted(v, w);
  }

  /** Storing an inode changes that inode and no file. */
  ghost predicate StoredInode(v: Vol, nodes: seq<Node>, x: Vol, ino: nat, inode: seq<Byte>) {
    && Formatted(x) && Owned(x, nodes) && x.sb == v.sb && |x.disk| == |v.disk| && |x.groups| == |v.groups|
    && ReadInode(x, ino) == Some(inode) && TreesSame(v, nodes, x)
    && (forall other: nat :: other != ino ==> ReadInode(x, other) == ReadInode(v, other))
    && (forall i, pos: nat :: 0 <= i < |nodes| ==>
                                ByteAt(x.disk, nodes[i].inode, pos) == ByteAt(v.disk, nodes[i].inode, pos))
    && (forall kind, n: nat :: Used(x, kind, n) <==> Used(v, kind, n))
  }

  lemma StoreInodeKeeps(v: Vol, nodes: seq<Node>, ino: nat, inode: seq<Byte>)
    requires Formatted(v) && Owned(v, nodes) && HasInode(v, ino) && |inode| == INODE_BYTES
    ensures StoredInode(v, nodes, WriteInode(v, ino, inode), ino, inode)
  {
    var x := WriteInode(v, ino, inode);
    WriteInodeKeeps(v, ino, inode);
    InodeRoundTrip(v, ino, inode);
    InodeInTable(v, ino);
    SameMetadata(v, x);
    TakeKeepsFormatted(v, x);
    MetadataWrite(v, x, nodes);
  }

  /** A file without blocks owns nothing. */
  lemma AddEmptyFile(v: Vol, nodes: seq<Node>, ino: nat, inode: seq<Byte>)
    requires v.sb.blocksPerGroup > 0 && Owned(v, nodes) && HasInode(v, ino) && |inode| == INODE_BYTES
    requires forall k: nat :: k < 15 ==> Ptr(inode, k) == 0
    ensures Owned(v, nodes + [Node(ino, inode)])
  {
    hide IsData;
    forall slot | SlotOk(slot) ensures BlockAt(v.disk, inode, slot) == 0 {}
    EmptyOwned(v, nodes, Node(ino, inode));
  }

  lemma EmptyOwned(v: Vol, nodes: seq<Node>, node: Node)
    requires v.sb.blocksPerGroup > 0 && Owned(v, nodes) && HasInode(v, node.ino) && |node.inode| == INODE_BYTES
    requires forall slot :: SlotOk(slot) ==> BlockAt(v.disk, node.inode, slot) == 0
    ensures Owned(v, nodes + [node])
  {
    hide BlockAt, SlotOk, IsData;
    var nodes' := nodes + [node];
    forall j, slot | 0 <= j < |nodes'| && SlotOk(slot)
      ensures BlockAt(v.disk, nodes'[j].inode, slot) ==
              if j == |nodes| then 0 else BlockAt(v.disk, nodes[j].inode, slot) {}
  }

  /** The new inode is the only one that changed, and the new file is open beside the old ones. */
  ghost predicate Added(fs: Files, fs': Files, ino: nat, inode: seq<Byte>) {
    && 0 < ino < U32 && Live(fs) && !Used(fs.v, InodeKind, ino) && Live(fs')
    && fs'.nodes == fs.nodes + [Node(ino, inode)] && ReadInode(fs'.v, ino) == Some(inode)
    && |fs'.v.disk| == |fs.v.disk| && fs'.v.sb == fs.v.sb && |fs'.v.groups| == |fs.v.groups|
    && TreesSame(fs.v, fs.nodes, fs'.v)
    && (forall other: nat :: other != ino ==> ReadInode(fs'.v, other) == ReadInode(fs.v, other))
    && (forall i, pos: nat :: 0 <= i < |fs.nodes| ==> fs'.At(i, pos) == fs.At(i, pos))
  }

  lemma AddInodeEffect(fs: Files, mode: int)
    requires Live(fs)
    ensures var (fs', ino) := AddInode(fs, mode);
            && (ino == 0 <==> forall g: nat :: g < |fs.v.groups| ==> fs.v.FreeCount(InodeKind, g) == 0)
            && (ino == 0 ==> fs' == fs) && (ino != 0 ==> Added(fs, fs', ino, NewInode(mode)))
  {
    hide Formatted, Owned, Take, Number, FilesSame, WriteInode, NewInode, Added, Used, Mounted;
    FormattedFacts(fs.v);
    AllocEffect(fs.v, InodeKind);
    match FindFree(fs.v, InodeKind, 0)
    case None =>
    case Some((g, b)) =>
      NumberInRange(fs.v, g, b);
      TakeInode(fs.v, fs.nodes, g, b);
      AddStored(fs, Take(fs.v, InodeKind, g, b), Number(fs.v, InodeKind, g, b), mode);
  }

  /** A number that was just taken, and the inode stored under it. */
  lemma AddStored(fs: Files, w: Vol, ino: nat, mode: int)
    requires Live(fs) && Formatted(w) && Owned(w, fs.nodes) && FilesSame(fs.v, fs.nodes, w) &&
             |w.groups| == |fs.v.groups|
    requires HasInode(w, ino) && 0 < ino < U32 && !Used(fs.v, InodeKind, ino)
    requires forall m: nat :: m != 0 ==> (Used(w, InodeKind, m) <==> m == ino || Used(fs.v, InodeKind, m))
    ensures Added(fs, Files(WriteInode(w, ino, NewInode(mode)), fs.nodes + [Node(ino, NewInode(mode))]), ino,
                  NewInode(mode))
  {
    hide Formatted, Owned, FilesSame, WriteInode, NewInode, BlockAt, ByteAt, ReadInode, Used, HasInode, Mounted,
         SlotOk, Ptr;
    var inode, x := NewInode(mode), WriteInode(w, ino, NewInode(mode));
    FilesSameFacts(fs.v, fs.nodes, w);
    StoreInodeKeeps(w, fs.nodes, ino, inode);
    NewInodeFields(mode);
    FormattedFacts(x);
    SamePlaces(w, x, ino);
    AddEmptyFile(x, fs.nodes, ino, inode);
    var fs' := Files(x, fs.nodes + [Node(ino, inode)]);
    FormattedFacts(fs.v);
    forall i | 0 <= i < |fs'.nodes| ensures Used(x, InodeKind, fs'.nodes[i].ino) {
      if i < |fs.nodes| { UsedPositive(fs.v, fs.nodes[i].ino); }
    }
  }

  lemma UsedPositive(v: Vol, n: nat)
    requires v.PerGroup(InodeKind) > 0 && Used(v, InodeKind, n)
    ensures n > 0
  {
  }

  lemma SamePlaces(v: Vol, w: Vol, ino: nat)
    requires w.sb == v.sb && |w.groups| == |v.groups|
    ensures HasInode(w, ino) <==> HasInode(v, ino)
  {
  }

  lemma FormattedFacts(v: Vol)
    requires Formatted(v)
    ensures Mounted(v) && v.sb.blocksPerGroup > 0 && v.sb.inodesPerGroup > 0
  {
  }

  lemma FilesSameFacts(v: Vol, nodes: seq<Node>, w: Vol)
    requires FilesSame(v, nodes, w)
    ensures w.sb == v.sb && |w.disk| == |v.disk| && InodesSame(v, w) && TreesSame(v, nodes, w)
    ensures forall i, pos: nat :: 0 <= i < |nodes| ==>
                                    ByteAt(w.disk, nodes[i].inode, pos) == ByteAt(v.disk, nodes[i].inode, pos)
  {
  }

  // The entry

  /** What putting the entry into an existing first block does. */
  ghost predicate Entered(fs: Files, d: nat, fs': Files, content: seq<Byte>)
    requires d < |fs.nodes|
  {
    && Live(fs') && fs'.nodes == fs.nodes && fs'.v.sb == fs.v.sb && |fs'.v.disk| == |fs.v.disk| &&
       InodesSame(fs.v, fs'.v)
    && TreesSame(fs.v, fs.nodes, fs'.v) && |content| == BLOCK_SIZE
    && forall j, pos: nat :: 0 <= j < |fs.nodes| ==>
         fs'.At(j, pos) == if j == d && (pos / 1024) % U32 == 0 then content[pos % 1024] else fs.At(j, pos)
  }

  lemma StoreEffect(fs: Files, d: nat, content: seq<Byte>)
    requires Live(fs) && d < |fs.nodes| && Ptr(fs.nodes[d].inode, 0) != 0 && |content| == BLOCK_SIZE
    ensures Ptr(fs.nodes[d].inode, 0) < |fs.v.disk|
    ensures Entered(fs, d, Files(fs.v.(disk := fs.v.disk[Ptr(fs.nodes[d].inode, 0) := content]), fs.nodes), content)
  {
    hide Formatted, Owned, ByteAt, BlockAt, Mounted, IsData, OutsideMetadata;
    var v, nodes, b := fs.v, fs.nodes, Ptr(fs.nodes[d].inode, 0);
    StoreKeeps(v, nodes, d, 0, content);
    FormattedFacts(v);
    FirstIsData(v, nodes, d);
    WriteBlockKeeps(v, b, content);
    var fs' := Files(v.(disk := v.disk[b := content]), nodes);
    forall j, pos: nat | 0 <= j < |nodes|
      ensures fs'.At(j, pos) == if j == d && (pos / 1024) % U32 == 0 then content[pos % 1024] else fs.At(j, pos)
    {
      StoreBytes(v, nodes, d, 0, content, j, pos);
    }
  }

  lemma FirstIsData(v: Vol, nodes: seq<Node>, d: nat)
    requires v.sb.blocksPerGroup > 0 && Owned(v, nodes) && d < |nodes| && Ptr(nodes[d].inode, 0) != 0
    ensures 0 < Ptr(nodes[d].inode, 0) < |v.disk|
    ensures forall kind, g: nat :: g < |v.groups| ==> v.BitmapBlock(kind, g) != Ptr(nodes[d].inode, 0)
  {
    assert SlotOk(Direct(0)) && BlockAt(v.disk, nodes[d].inode, Direct(0)) == Ptr(nodes[d].inode, 0);
    assert IsData(v, Ptr(nodes[d].inode, 0));
  }

  lemma EnterBlock(fs: Files, d: nat, ino: nat, name: seq<Byte>)
    requires Live(fs) && d < |fs.nodes| && ino < U32 && |fs.nodes[d].inode| == INODE_BYTES
    requires FileBlock(fs.v.disk, fs.nodes[d].inode, 0) != 0 && Tiles(FirstBlock(fs.v.disk, fs.nodes[d].inode), 0)
    ensures Entered(fs, d, Enter(fs, d, ino, name), Insert(FirstBlock(fs.v.disk, fs.nodes[d].inode), ino, name))
  {
    hide Insert, Tiles, Formatted, Owned, Entered, Alloc, WithFirstBlock;
    var first := FirstBlock(fs.v.disk, fs.nodes[d].inode);
    FormattedFacts(fs.v);
    FirstIsData(fs.v, fs.nodes, d);
    InsertEffect(first, ino, name);
    StoreEffect(fs, d, Insert(first, ino, name));
  }

  // A directory without a block

  lemma FirstBlockFields(inode: seq<Byte>, n: nat)
    requires |inode| == INODE_BYTES && n < U32
    ensures |WithFirstBlock(inode, n)| == INODE_BYTES && Size(WithFirstBlock(inode, n)) == BLOCK_SIZE
    ensures Ptr(WithFirstBlock(inode, n), 0) == n
  {
    WithPtrFields(inode, 0, n);
    WithSizeFields(WithPtr(inode, 0, n), BLOCK_SIZE);
  }

  /** The directory with its new block, before the inode is stored. */
  lemma FreshFirst(fs: Files, d: nat)
    requires Intact(fs) && d < |fs.nodes| && |fs.nodes[d].inode| == INODE_BYTES && Ptr(fs.nodes[d].inode, 0) == 0
    ensures var (y, n) := Alloc(fs.v, BlockKind);
            var mid := fs.With(d, y, WithPtr(fs.nodes[d].inode, 0, n));
            && n < U32 && Intact(mid) && InodesSame(fs.v, y) && y.sb == fs.v.sb && |y.disk| == |fs.v.disk|
            && (forall j, pos: nat :: 0 <= j < |fs.nodes| && j != d ==> mid.At(j, pos) == fs.At(j, pos))
            && (forall pos: nat :: (pos / 1024) % U32 != 0 ==> mid.At(d, pos) == fs.At(d, pos))
  {
    hide Formatted, Owned, Take, Number, FilesSame, ByteAt, WithPtr, BlockAt;
    var v, nodes := fs.v, fs.nodes;
    FormattedFacts(v);
    AllocZero(v);
    match FindFree(v, BlockKind, 0)
    case None =>
      WithPtrFields(nodes[d].inode, 0, 0);
      ResizeKeeps(v, nodes, d, WithPtr(nodes[d].inode, 0, 0));
    case Some((g, b)) =>
      var w, n := Take(v, BlockKind, g, b), Number(v, BlockKind, g, b);
      NumberPositive(v, g, b);
      TakeForFile(v, nodes, g, b);
      FilesSameFacts(v, nodes, w);
      FormattedFacts(w);
      AdoptBlock(w, nodes, d, 0, n);
      FreshBytes(v, w, nodes, d, 0, n);
  }

  /** What `create` does to a directory that had no block. */
  ghost predicate GaveBlock(fs: Files, d: nat, fs': Files, n: nat)
    requires d < |fs.nodes| && |fs.nodes[d].inode| == INODE_BYTES
  {
    var node := Node(fs.nodes[d].ino, WithFirstBlock(fs.nodes[d].inode, n));
    && Live(fs') && fs'.nodes == fs.nodes[d := node] && ReadInode(fs'.v, node.ino) == Some(node.inode)
    && (forall other: nat :: other != node.ino ==> ReadInode(fs'.v, other) == ReadInode(fs.v, other))
    && (forall j, pos: nat :: 0 <= j < |fs.nodes| && j != d ==> fs'.At(j, pos) == fs.At(j, pos))
    && (forall pos: nat :: 1024 <= pos < FILE_SPAN ==> fs'.At(d, pos) == fs.At(d, pos))
  }

  lemma EnterFresh(fs: Files, d: nat, ino: nat, name: seq<Byte>)
    requires Live(fs) && d < |fs.nodes| && |fs.nodes[d].inode| == INODE_BYTES
    requires FileBlock(fs.v.disk, fs.nodes[d].inode, 0) == 0 && Tiles(FirstBlock(fs.v.disk, fs.nodes[d].inode), 0)
    ensures GaveBlock(fs, d, Enter(fs, d, ino, name), Alloc(fs.v, BlockKind).1)
  {
    hide Formatted, Owned, Alloc, ByteAt, BlockAt, WithPtr, WithSize, WriteInode, ReadInode, Used, Tiles;
    var (y, n) := Alloc(fs.v, BlockKind);
    FirstIsPtr(fs.v.disk, fs.nodes[d].inode);
    FreshFirst(fs, d);
    var mid := fs.With(d, y, WithPtr(fs.nodes[d].inode, 0, n));
    SizeEffect(mid, d, BLOCK_SIZE, 0);
    StillUsed(fs, d);
    var fs' := Enter(fs, d, ino, name);
    assert fs'.nodes == mid.With(d, fs'.v, fs'.nodes[d].inode).nodes;
    forall pos: nat | 1024 <= pos < FILE_SPAN ensures (pos / 1024) % U32 != 0 { LaterBlock(pos); }
  }

  lemma FirstIsPtr(disk: seq<seq<Byte>>, inode: seq<Byte>)
    ensures FileBlock(disk, inode, 0) == Ptr(inode, 0)
  {
  }

  lemma LaterBlock(pos: nat)
    requires 1024 <= pos < FILE_SPAN
    ensures (pos / 1024) % U32 != 0
  {
    assert pos / 1024 < U32;
  }

  lemma StillUsed(fs: Files, d: nat)
    requires Live(fs) && d < |fs.nodes| && |fs.nodes[d].inode| == INODE_BYTES
    ensures var (y, n) := Alloc(fs.v, BlockKind);
            var x := WriteInode(y, fs.nodes[d].ino, WithFirstBlock(fs.nodes[d].inode, n));
            && x.sb == fs.v.sb && |x.groups| == |fs.v.groups|
            && forall i :: 0 <= i < |fs.nodes| ==> Used(x, InodeKind, fs.nodes[i].ino)
  {
    hide Owned, Alloc, WithFirstBlock, WriteInode;
    AllocEffect(fs.v, BlockKind);
    var (y, n) := Alloc(fs.v, BlockKind);
    OwnsInode(fs.v, fs.nodes, d);
    SamePlaces(fs.v, y, fs.nodes[d].ino);
    WriteInodeKeeps(y, fs.nodes[d].ino, WithFirstBlock(fs.nodes[d].inode, n));
  }

  lemma OwnsInode(v: Vol, nodes: seq<Node>, i: nat)
    requires v.sb.blocksPerGroup > 0 && Owned(v, nodes) && i < |nodes|
    ensures HasInode(v, nodes[i].ino) && |nodes[i].inode| == INODE_BYTES
  {
  }

  /** The block that a directory is given is not cleared: its first block is whatever the disk held there. */
  lemma BlockNotCleared(fs: Files, d: nat, ino: nat, name: seq<Byte>)
    requires Live(fs) && d < |fs.nodes| && |fs.nodes[d].inode| == INODE_BYTES && Alloc(fs.v, BlockKind).1 != 0
    requires FileBlock(fs.v.disk, fs.nodes[d].inode, 0) == 0 && Tiles(FirstBlock(fs.v.disk, fs.nodes[d].inode), 0)
    ensures var n, fs' := Alloc(fs.v, BlockKind).1, Enter(fs, d, ino, name);
            n < |fs.v.disk| == |fs'.v.disk| && FirstBlock(fs'.v.disk, fs'.nodes[d].inode) == fs.v.disk[n]
  {
    hide Owned, WithFirstBlock, WriteInode, Tiles, Used, Take, Number;
    var (g, b) := FindFree(fs.v, BlockKind, 0).value;
    var y, n := Take(fs.v, BlockKind, g, b), Number(fs.v, BlockKind, g, b);
    TakeForFile(fs.v, fs.nodes, g, b);
    TakeBitmaps(fs.v, BlockKind, g, b);
    OwnsInode(fs.v, fs.nodes, d);
    SamePlaces(fs.v, y, fs.nodes[d].ino);
    InodeInTable(y, fs.nodes[d].ino);
    WriteInodeKeeps(y, fs.nodes[d].ino, WithFirstBlock(fs.nodes[d].inode, n));
    FirstBlockFields(fs.nodes[d].inode, n);
    FirstIsPtr(Enter(fs, d, ino, name).v.disk, WithFirstBlock(fs.nodes[d].inode, n));
  }

  // The whole operation

  /** After the inode part the directory's first block is what it was. */
  lemma FirstKept(fs: Files, fs': Files, d: nat, ino: nat, inode: seq<Byte>)
    requires Added(fs, fs', ino, inode) && d < |fs.nodes|
    ensures FirstBlock(fs'.v.disk, fs'.nodes[d].inode) == FirstBlock(fs.v.disk, fs.nodes[d].inode)
    ensures FileBlock(fs'.v.disk, fs'.nodes[d].inode, 0) == FileBlock(fs.v.disk, fs.nodes[d].inode, 0)
  {
    FirstIsPtr(fs.v.disk, fs.nodes[d].inode);
    FirstIsPtr(fs'.v.disk, fs.nodes[d].inode);
    SameContent(fs, fs', d, 0);
  }

  /** Blocks of a file with the same bytes are the same. */
  lemma SameContent(fs: Files, fs': Files, j: nat, fb: nat)
    requires Intact(fs) && Intact(fs') && j < |fs.nodes| && j < |fs'.nodes| && fs'.nodes[j] == fs.nodes[j] && fb < U32
    requires |fs'.v.disk| == |fs.v.disk|
    requires FileBlock(fs'.v.disk, fs.nodes[j].inode, fb) == FileBlock(fs.v.disk, fs.nodes[j].inode, fb)
    requires forall pos: nat :: (pos / 1024) % U32 == fb ==> fs'.At(j, pos) == fs.At(j, pos)
    ensures var b := FileBlock(fs.v.disk, fs.nodes[j].inode, fb);
            0 < b < |fs.v.disk| ==> fs'.v.disk[b] == fs.v.disk[b]
  {
    hide Owned, FileBlock;
    var b := FileBlock(fs.v.disk, fs.nodes[j].inode, fb);
    if 0 < b < |fs.v.disk| {
      assert |fs.v.disk[b]| == BLOCK_SIZE && |fs'.v.disk[b]| == BLOCK_SIZE;
      forall k | 0 <= k < BLOCK_SIZE ensures fs'.v.disk[b][k] == fs.v.disk[b][k] {
        var pos := fb * 1024 + k;
        InBlockOf(fb, k, pos);
        assert fs'.At(j, pos) == fs.At(j, pos);
      }
    }
  }

  lemma InBlockOf(fb: nat, k: nat, pos: nat)
    requires fb < U32 && k < 1024 && pos == fb * 1024 + k
    ensures (pos / 1024) % U32 == fb && pos % 1024 == k
  {
    DivModOf(fb, 1024, k);
  }

  /** `ext2_vfs_create` up to the node it hands out: the volume and open files afterwards, and the inode number. */
  ghost function Create(fs: Files, d: nat, name: seq<Byte>, mode: int): (Files, nat)
    requires Live(fs) && d < |fs.nodes| && |fs.nodes[d].inode| == INODE_BYTES
    requires Tiles(FirstBlock(fs.v.disk, fs.nodes[d].inode), 0)
  {
    var (mid, ino) := AddInode(fs, mode);
    AddInodeEffect(fs, mode);
    if ino == 0 then (fs, 0) else FirstKept(fs, mid, d, ino, NewInode(mode)); (Enter(mid, d, ino, name), ino)
  }

  /**
   Everything `create` does: the number was free, the inode reads back and the file is empty; the files stay intact;
   no other inode but the directory's and no byte but those of the directory's first block changed.
   */
  ghost predicate MadeFile(fs: Files, d: nat, fs': Files, ino: nat, inode: seq<Byte>)
    requires d < |fs.nodes|
  {
    && 0 < ino < U32 && Live(fs) && !Used(fs.v, InodeKind, ino) && Live(fs')
    && |fs'.nodes| == |fs.nodes| + 1 && fs'.nodes[|fs.nodes|] == Node(ino, inode)
    && ReadInode(fs'.v, ino) == Some(inode) && Size(inode) == 0
    && fs'.nodes[d].ino == fs.nodes[d].ino &&
       (forall j :: 0 <= j < |fs.nodes| && j != d ==> fs'.nodes[j] == fs.nodes[j])
    && (forall other: nat :: other != ino && other != fs.nodes[d].ino ==>
        ReadInode(fs'.v, other) == ReadInode(fs.v, other))
    && (forall j, pos: nat :: 0 <= j < |fs.nodes| && j != d ==> fs'.At(j, pos) == fs.At(j, pos))
    && (forall pos: nat :: 1024 <= pos < FILE_SPAN ==> fs'.At(d, pos) == fs.At(d, pos))
  }

  lemma CreateEffect(fs: Files, d: nat, name: seq<Byte>, mode: int)
    requires Live(fs) && d < |fs.nodes| && |fs.nodes[d].inode| == INODE_BYTES
    requires Tiles(FirstBlock(fs.v.disk, fs.nodes[d].inode), 0)
    ensures var (fs', ino) := Create(fs, d, name, mode);
            && (ino == 0 <==> forall g: nat :: g < |fs.v.groups| ==> fs.v.FreeCount(InodeKind, g) == 0)
            && (ino == 0 ==> fs' == fs) && (ino != 0 ==> MadeFile(fs, d, fs', ino, NewInode(mode)))
  {
    hide Live, Added, Enter, AddInode, Tiles, MadeFile, NewInode, FirstBlock;
    var (mid, ino) := AddInode(fs, mode);
    AddInodeEffect(fs, mode);
    if ino != 0 {
      FirstKept(fs, mid, d, ino, NewInode(mode));
      EnteredMakes(fs, mid, d, ino, name, mode);
    }
  }

  lemma EnteredMakes(fs: Files, mid: Files, d: nat, ino: nat, name: seq<Byte>, mode: int)
    requires Added(fs, mid, ino, NewInode(mode)) && d < |fs.nodes| && |fs.nodes[d].inode| == INODE_BYTES
    requires mid.nodes[d] == fs.nodes[d] && Tiles(FirstBlock(mid.v.disk, mid.nodes[d].inode), 0)
    ensures MadeFile(fs, d, Enter(mid, d, ino, name), ino, NewInode(mode))
  {
    hide Live, Tiles, Enter, NewInode, FirstBlock, FileBlock, ByteAt, ReadInode, Used, WithFirstBlock, Insert;
    NewInodeFields(mode);
    LiveUsed(fs, d);
    forall pos: nat | 1024 <= pos < FILE_SPAN ensures (pos / 1024) % U32 != 0 { LaterBlock(pos); }
    if FileBlock(mid.v.disk, mid.nodes[d].inode, 0) == 0 {
      EnterFresh(mid, d, ino, name);
    } else {
      EnterBlock(mid, d, ino, name);
    }
  }

  lemma LiveUsed(fs: Files, i: nat)
    requires Live(fs) && i < |fs.nodes|
    ensures Used(fs.v, InodeKind, fs.nodes[i].ino)
  {
  }

  // Looking the name up

  /** How many blocks the scans of a directory visit, computed in 32 bits. */
  function BlockCount(inode: seq<Byte>): (n: nat)
    ensures 0 < n < U32
  {
    var n := (Size(inode) + 1023) % U32 / 1024;
    if n == 0 then 1 else n
  }

  /** The blocks from `b` to `n` that the scans can read, in order. */
  function BlocksFrom(disk: seq<seq<Byte>>, inode: seq<Byte>, b: nat, n: nat): seq<seq<Byte>>
    decreases n - b
  {
    if b >= n then []
    else
      var x := FileBlock(disk, inode, b);
      (if 0 < x < |disk| then [disk[x]] else []) + BlocksFrom(disk, inode, b + 1, n)
  }

  function DirBlocks(disk: seq<seq<Byte>>, inode: seq<Byte>): seq<seq<Byte>> {
    BlocksFrom(disk, inode, 0, BlockCount(inode))
  }

  function Readable(v: Vol): nat -> bool { (ino: nat) => ReadInode(v, ino).Some? }

  /** What `ext2_vfs_finddir` finds in the directory on this volume. */
  function Find(v: Vol, inode: seq<Byte>, name: seq<Byte>): Option<nat> {
    Lookup(DirEntries(DirBlocks(v.disk, inode)), name, Readable(v))
  }

  lemma {:induction false} BlockScanned(disk: seq<seq<Byte>>, inode: seq<Byte>, b: nat, n: nat, fb: nat)
    requires b <= fb < n && 0 < FileBlock(disk, inode, fb) < |disk|
    ensures disk[FileBlock(disk, inode, fb)] in BlocksFrom(disk, inode, b, n)
    decreases n - b
  {
    if b < fb { BlockScanned(disk, inode, b + 1, n, fb); }
  }

  lemma {:induction false} ScannedBlock(disk: seq<seq<Byte>>, inode: seq<Byte>, b: nat, n: nat, block: seq<Byte>)
    returns (fb: nat)
    requires block in BlocksFrom(disk, inode, b, n)
    ensures b <= fb < n && 0 < FileBlock(disk, inode, fb) < |disk| && disk[FileBlock(disk, inode, fb)] == block
    decreases n - b
  {
    var x := FileBlock(disk, inode, b);
    if 0 < x < |disk| && disk[x] == block { fb := b; } else { fb := ScannedBlock(disk, inode, b + 1, n, block); }
  }

  /** The scans visit the blocks that the size covers, and block 0 in any case. */
  lemma CountCovers(size: nat, fb: nat)
    requires size + 1023 < U32
    ensures var n := (size + 1023) % U32 / 1024;
            fb < (if n == 0 then 1 else n) <==> fb == 0 || fb * 1024 < size
  {
  }

  lemma {:induction false} EntryInDir(blocks: seq<seq<Byte>>, b: seq<Byte>, e: Entry)
    requires b in blocks && e in Entries(b, 0)
    ensures e in DirEntries(blocks)
  {
    if blocks[0] != b { EntryInDir(blocks[1..], b, e); }
  }

  lemma {:induction false} LookupFinds(es: seq<Entry>, e: Entry, readable: nat -> bool)
    requires e in es && readable(e.ino)
    ensures Lookup(es, e.name, readable).Some?
  {
    if es[0] != e { LookupFinds(es[1..], e, readable); }
  }

  lemma {:induction false} LookupHas(es: seq<Entry>, name: seq<Byte>, readable: nat -> bool) returns (e: Entry)
    requires Lookup(es, name, readable).Some?
    ensures e in es && e.name == name && e.ino == Lookup(es, name, readable).value && readable(e.ino)
  {
    if Matches(es[0], name, readable) { e := es[0]; } else { e := LookupHas(es[1..], name, readable); }
  }

  /** Every entry in a block below the size is found, if its inode can be read. */
  lemma FindsEveryEntry(v: Vol, inode: seq<Byte>, fb: nat, e: Entry)
    requires Size(inode) + 1023 < U32 && fb * 1024 < Size(inode) && 0 < FileBlock(v.disk, inode, fb) < |v.disk|
    requires e in Entries(v.disk[FileBlock(v.disk, inode, fb)], 0) && ReadInode(v, e.ino).Some?
    ensures Find(v, inode, e.name).Some?
  {
    hide Entries, FileBlock, Lookup, BlocksFrom;
    CountCovers(Size(inode), fb);
    BlockScanned(v.disk, inode, 0, BlockCount(inode), fb);
    EntryInDir(DirBlocks(v.disk, inode), v.disk[FileBlock(v.disk, inode, fb)], e);
    LookupFinds(DirEntries(DirBlocks(v.disk, inode)), e, Readable(v));
  }

  lemma {:induction false} EntryHasBlock(blocks: seq<seq<Byte>>, e: Entry) returns (b: seq<Byte>)
    requires e in DirEntries(blocks)
    ensures b in blocks && e in Entries(b, 0)
  {
    if e in Entries(blocks[0], 0) { b := blocks[0]; } else { b := EntryHasBlock(blocks[1..], e); }
  }

  /** What is found is an entry of that name, in a block below the size or in block 0. */
  lemma FoundIsEntry(v: Vol, inode: seq<Byte>, name: seq<Byte>) returns (fb: nat, e: Entry)
    requires Size(inode) + 1023 < U32 && Find(v, inode, name).Some?
    ensures (fb == 0 || fb * 1024 < Size(inode)) && 0 < FileBlock(v.disk, inode, fb) < |v.disk|
    ensures e in Entries(v.disk[FileBlock(v.disk, inode, fb)], 0) && e.name == name && ReadInode(v, e.ino).Some?
    ensures Find(v, inode, name) == Some(e.ino)
  {
    hide Entries, FileBlock, Lookup, BlocksFrom, DirEntries;
    e := LookupHas(DirEntries(DirBlocks(v.disk, inode)), name, Readable(v));
    var b := EntryHasBlock(DirBlocks(v.disk, inode), e);
    fb := ScannedBlock(v.disk, inode, 0, BlockCount(inode), b);
    CountCovers(Size(inode), fb);
  }

  /** Just below 4 GB the count wraps around, and only block 0 is visited. */
  lemma CountWraps(inode: seq<Byte>)
    requires Size(inode) + 1023 >= U32
    ensures BlockCount(inode) == 1
  {
    WordRange(inode, 4);
  }

  lemma {:induction false} BlocksSame(disk: seq<seq<Byte>>, disk': seq<seq<Byte>>, inode: seq<Byte>, b: nat, n: nat)
    requires |disk'| == |disk|
    requires forall fb: nat :: b <= fb < n ==> FileBlock(disk', inode, fb) == FileBlock(disk, inode, fb)
    requires forall fb: nat :: b <= fb < n ==>
               var x := FileBlock(disk, inode, fb); 0 < x < |disk| ==> disk'[x] == disk[x]
    ensures BlocksFrom(disk', inode, b, n) == BlocksFrom(disk, inode, b, n)
    decreases n - b
  {
    if b < n { BlocksSame(disk, disk', inode, b + 1, n); }
  }

  lemma {:induction false} LookupSame(es: seq<Entry>, name: seq<Byte>, r: nat -> bool, r': nat -> bool)
    requires forall i: nat :: r(i) == r'(i)
    ensures Lookup(es, name, r) == Lookup(es, name, r')
  {
    if es != [] { LookupSame(es[1..], name, r, r'); }
  }

  /** An inode can be read exactly when some group has it. */
  lemma ReadableIs(v: Vol, ino: nat)
    requires Sized(v) && Laid(v)
    ensures Readable(v)(ino) <==> HasInode(v, ino)
  {
    if HasInode(v, ino) { InodeInTable(v, ino); }
  }

  /** A file whose bytes from block `b` on stay has the same blocks there. */
  lemma KeptBlocks(fs: Files, fs': Files, d: nat, b: nat, n: nat)
    requires Intact(fs) && Intact(fs') && d < |fs.nodes| && d < |fs'.nodes| && fs'.nodes[d] == fs.nodes[d] && n < U32
    requires |fs'.v.disk| == |fs.v.disk| && TreesSame(fs.v, fs.nodes, fs'.v)
    requires forall pos: nat :: (pos / 1024) % U32 >= b ==> fs'.At(d, pos) == fs.At(d, pos)
    ensures BlocksFrom(fs'.v.disk, fs.nodes[d].inode, b, n) == BlocksFrom(fs.v.disk, fs.nodes[d].inode, b, n)
  {
    hide Formatted, Owned, FileBlock, ByteAt;
    forall fb: nat | b <= fb < n
      ensures FileBlock(fs'.v.disk, fs.nodes[d].inode, fb) == FileBlock(fs.v.disk, fs.nodes[d].inode, fb)
      ensures var x := FileBlock(fs.v.disk, fs.nodes[d].inode, fb);
              0 < x < |fs.v.disk| ==> fs'.v.disk[x] == fs.v.disk[x]
    {
      TreeGivesFileBlocks(fs.v.disk, fs'.v.disk, fs.nodes[d].inode, fs.nodes[d].inode, fb);
      SameContent(fs, fs', d, fb);
    }
    BlocksSame(fs.v.disk, fs'.v.disk, fs.nodes[d].inode, b, n);
  }

  /** The directory's blocks after the entry was put into the first one. */
  lemma EnteredBlocks(fs: Files, d: nat, fs': Files, ino: nat, name: seq<Byte>)
    requires Live(fs) && d < |fs.nodes| && FileBlock(fs.v.disk, fs.nodes[d].inode, 0) != 0
    requires var first := FirstBlock(fs.v.disk, fs.nodes[d].inode);
             Tiles(first, 0) && Entered(fs, d, fs', Insert(first, ino, name))
    ensures var inode, first := fs.nodes[d].inode, FirstBlock(fs.v.disk, fs.nodes[d].inode);
            && |first| == BLOCK_SIZE && DirBlocks(fs.v.disk, inode) != [] && DirBlocks(fs.v.disk, inode)[0] == first
            && DirBlocks(fs'.v.disk, inode) == Created(DirBlocks(fs.v.disk, inode), ino, name)
  {
    hide Formatted, Owned, ByteAt, Insert, Tiles, BlockCount;
    var inode, n := fs.nodes[d].inode, BlockCount(fs.nodes[d].inode);
    var content := Insert(FirstBlock(fs.v.disk, inode), ino, name);
    FormattedFacts(fs.v);
    FirstIsData(fs.v, fs.nodes, d);
    KeptBlocks(fs, fs', d, 1, n);
    StoredContent(fs, d, fs', content);
    var rest := BlocksFrom(fs.v.disk, inode, 1, n);
    assert DirBlocks(fs.v.disk, inode) == [FirstBlock(fs.v.disk, inode)] + rest;
    assert DirBlocks(fs'.v.disk, inode) == [content] + rest;
  }

  lemma StoredContent(fs: Files, d: nat, fs': Files, content: seq<Byte>)
    requires Live(fs) && d < |fs.nodes| && 0 < Ptr(fs.nodes[d].inode, 0) < |fs.v.disk| && Entered(fs, d, fs', content)
    ensures fs'.v.disk[Ptr(fs.nodes[d].inode, 0)] == content
  {
    hide Owned;
    var b := Ptr(fs.nodes[d].inode, 0);
    FirstIsPtr(fs'.v.disk, fs.nodes[d].inode);
    assert |fs'.v.disk[b]| == BLOCK_SIZE;
    forall k | 0 <= k < BLOCK_SIZE ensures fs'.v.disk[b][k] == content[k] {
      InBlockOf(0, k, k);
      assert fs'.At(d, k) == content[k];
    }
  }

  /**
   After `create` in a directory with a block, of a name it does not hold, `finddir` finds the new inode exactly
   when a record of the first block had room and the name has 1 to 255 bytes; other names are found as before.
   */
  lemma CreateFindsFile(fs: Files, d: nat, name: seq<Byte>, mode: int)
    requires Live(fs) && d < |fs.nodes| && |fs.nodes[d].inode| == INODE_BYTES
    requires FileBlock(fs.v.disk, fs.nodes[d].inode, 0) != 0 && Tiles(FirstBlock(fs.v.disk, fs.nodes[d].inode), 0)
    requires forall e :: e in DirEntries(DirBlocks(fs.v.disk, fs.nodes[d].inode)) ==> e.name != name
    ensures var (fs', ino) := Create(fs, d, name, mode);
            var inode := fs.nodes[d].inode;
            ino != 0 ==>
              && fs'.nodes[d] == fs.nodes[d]
              && (Find(fs'.v, inode, name) == Some(ino) <==>
                  FindSlack(FirstBlock(fs.v.disk, inode), 0, Needed(|name|)).Some? && 1 <= |name| <= 255)
              && forall other :: other != Stored(name) ==> Find(fs'.v, inode, other) == Find(fs.v, inode, other)
  {
    hide Live, AddInode, Added, Tiles, Enter, NewInode, FirstBlock, FileBlock, Entered, DirBlocks, DirEntries, Lookup,
         FindSlack, Needed, Stored, Readable;
    var (mid, ino) := AddInode(fs, mode);
    AddInodeEffect(fs, mode);
    if ino != 0 {
      FirstKept(fs, mid, d, ino, NewInode(mode));
      FindsEntered(fs, mid, d, ino, name, mode);
    }
  }

  lemma FindsEntered(fs: Files, mid: Files, d: nat, ino: nat, name: seq<Byte>, mode: int)
    requires Added(fs, mid, ino, NewInode(mode)) && d < |fs.nodes| && |fs.nodes[d].inode| == INODE_BYTES
    requires mid.nodes[d] == fs.nodes[d] && Tiles(FirstBlock(mid.v.disk, mid.nodes[d].inode), 0)
    requires FirstBlock(mid.v.disk, mid.nodes[d].inode) == FirstBlock(fs.v.disk, fs.nodes[d].inode)
    requires FileBlock(mid.v.disk, fs.nodes[d].inode, 0) != 0
    requires forall e :: e in DirEntries(DirBlocks(fs.v.disk, fs.nodes[d].inode)) ==> e.name != name
    ensures var inode, fs' := fs.nodes[d].inode, Enter(mid, d, ino, name);
            && fs'.nodes[d] == fs.nodes[d]
            && (Find(fs'.v, inode, name) == Some(ino) <==>
                FindSlack(FirstBlock(fs.v.disk, inode), 0, Needed(|name|)).Some? && 1 <= |name| <= 255)
            && forall other :: other != Stored(name) ==> Find(fs'.v, inode, other) == Find(fs.v, inode, other)
  {
    hide Live, NewInode, FirstBlock, FileBlock, Entered, DirBlocks, DirEntries, Lookup, Enter,
         FindSlack, Needed, Stored, Readable, Insert, Tiles, ByteAt, Used, ReadInode;
    var inode, fs' := fs.nodes[d].inode, Enter(mid, d, ino, name);
    var blocks := DirBlocks(mid.v.disk, inode);
    EnterBlock(mid, d, ino, name);
    EnteredBlocks(mid, d, fs', ino, name);
    EnteredNodes(mid, d, fs', Insert(FirstBlock(mid.v.disk, inode), ino, name));
    KeptDir(fs, mid, d, ino, NewInode(mode));
    NewIsPlaced(fs, mid, ino, NewInode(mode));
    SameReadable(fs, mid, fs', ino);
    CreateFinds(blocks, ino, name, Readable(fs'.v));
    forall other | other != Stored(name) ensures Find(fs'.v, inode, other) == Find(fs.v, inode, other) {
      LookupSame(DirEntries(blocks), other, Readable(fs.v), Readable(fs'.v));
    }
  }

  lemma NewIsPlaced(fs: Files, mid: Files, ino: nat, inode: seq<Byte>)
    requires Added(fs, mid, ino, inode)
    ensures HasInode(fs.v, ino)
  {
    hide Owned;
    OwnsInode(mid.v, mid.nodes, |fs.nodes|);
    SamePlaces(fs.v, mid.v, ino);
  }

  lemma EnteredNodes(fs: Files, d: nat, fs': Files, content: seq<Byte>)
    requires d < |fs.nodes| && Entered(fs, d, fs', content)
    ensures fs'.nodes == fs.nodes && InodesSame(fs.v, fs'.v) && Live(fs')
  {
  }

  lemma KeptDir(fs: Files, mid: Files, d: nat, ino: nat, inode: seq<Byte>)
    requires Added(fs, mid, ino, inode) && d < |fs.nodes|
    ensures DirBlocks(mid.v.disk, fs.nodes[d].inode) == DirBlocks(fs.v.disk, fs.nodes[d].inode)
  {
    hide Formatted, Owned, ByteAt, FileBlock, BlockCount;
    KeptBlocks(fs, mid, d, 0, BlockCount(fs.nodes[d].inode));
  }

  /** The same inodes can be read, the new one among them. */
  lemma SameReadable(fs: Files, mid: Files, fs': Files, ino: nat)
    requires Live(fs) && Live(mid) && InodesSame(mid.v, fs'.v) && ReadInode(mid.v, ino).Some?
    requires mid.v.sb == fs.v.sb
    requires forall other: nat :: other != ino ==> ReadInode(mid.v, other) == ReadInode(fs.v, other)
    requires HasInode(fs.v, ino)
    ensures Readable(fs'.v)(ino) && forall i: nat :: Readable(fs'.v)(i) == Readable(fs.v)(i)
  {
    hide Owned, ReadInode;
    ReadableIs(fs.v, ino);
  }

  // The driver in place

  lemma LiveSized(fs: Files)
    requires Live(fs)
    ensures Sized(fs.v)
  {
  }

  lemma AllocSized(v: Vol, kind: Kind)
    requires Sized(v)
    ensures Sized(Alloc(v, kind).0)
  {
  }

  lemma NoNumber(fs: Files)
    requires Live(fs) && Alloc(fs.v, InodeKind).1 == 0
    ensures Alloc(fs.v, InodeKind).0 == fs.v
  {
    AllocEffect(fs.v, InodeKind);
  }

  lemma AddedLive(fs: Files, mid: Files, ino: nat, inode: seq<Byte>)
    requires Added(fs, mid, ino, inode)
    ensures Live(mid)
  {
  }

  lemma NotInserted(b: seq<Byte>, ino: nat, name: seq<Byte>)
    requires Tiles(b, 0)
    ensures FindSlack(b, 0, Needed(|name|)).None? ==> Insert(b, ino, name) == b
  {
  }

  lemma PlaceReadable(v: Vol, ino: nat)
    requires Sized(v) && Laid(v)
    ensures Readable(v)(ino) <==> ino > 0 && (ino - 1) / v.sb.inodesPerGroup < |v.groups|
  {
    ReadableIs(v, ino);
  }

  lemma FirstOfBlocks(b: seq<Byte>, rest: seq<seq<Byte>>, name: seq<Byte>, readable: nat -> bool)
    ensures Lookup(DirEntries([b] + rest), name, readable) ==
            if Lookup(Entries(b, 0), name, readable).Some? then Lookup(Entries(b, 0), name, readable)
            else Lookup(DirEntries(rest), name, readable)
  {
    assert ([b] + rest)[1..] == rest;
    LookupConcat(Entries(b, 0), DirEntries(rest), name, readable);
  }

  lemma LookupNothing(name: seq<Byte>, readable: nat -> bool)
    ensures Lookup(DirEntries([]), name, readable) == None
  {
  }

  /** `ext2_vfs_create` */
  method CreateFile(dir: OpenFile, name: seq<Byte>, mode: int, ghost nodes: seq<Node>, ghost d: nat) returns (ino: nat)
    requires d < |nodes| && Live(dir.Now(nodes, d)) && |dir.inode| == INODE_BYTES
    requires Tiles(FirstBlock(dir.vol.disk[..], dir.inode), 0)
    modifies dir, dir.vol, dir.vol.disk, dir.vol.groups
    ensures var (fs', n) := Create(old(dir.Now(nodes, d)), d, name, mode);
            ino == n && dir.vol.View() == fs'.v && dir.inode == fs'.nodes[d].inode
  {
    hide Live, Tiles, Alloc, WriteInode, NewInode, Insert, FileBlock, Ptr, WithFirstBlock;
    ghost var fs := dir.Now(nodes, d);
    LiveSized(fs);
    ino := dir.vol.AllocNumber(InodeKind);
    AddInodeEffect(fs, mode);
    if ino == 0 {
      NoNumber(fs);
      return;
    }
    ghost var mid := AddInode(fs, mode).0;
    FirstKept(fs, mid, d, ino, NewInode(mode));
    AllocSized(fs.v, InodeKind);
    dir.vol.StoreInode(ino, NewInode(mode));
    AddedLive(fs, mid, ino, NewInode(mode));
    LiveSized(mid);
    EnterName(dir, ino, name, mid, d);
  }

  /** The part of `create` that deals with the directory block. */
  method EnterName(dir: OpenFile, ino: nat, name: seq<Byte>, ghost fs: Files, ghost d: nat)
    requires d < |fs.nodes| && fs.v == dir.vol.View() && fs.nodes[d] == Node(dir.ino, dir.inode) && Sized(fs.v)
    requires |dir.inode| == INODE_BYTES && Tiles(FirstBlock(dir.vol.disk[..], dir.inode), 0)
    modifies dir, dir.vol, dir.vol.disk, dir.vol.groups
    ensures var fs' := Enter(fs, d, ino, name); dir.vol.View() == fs'.v && dir.inode == fs'.nodes[d].inode
  {
    hide Alloc, WriteInode, Insert, FileBlock, Tiles, WithFirstBlock, Ptr;
    var b := dir.GetFileBlock(0);
    if b == 0 {
      AllocSized(fs.v, BlockKind);
      var n := dir.vol.AllocNumber(BlockKind);
      dir.inode := WithFirstBlock(dir.inode, n);
      dir.vol.StoreInode(dir.ino, dir.inode);
    } else if b < dir.vol.disk.Length {
      var block := dir.vol.disk[b];
      var buf := new Byte[|block|](i requires 0 <= i < |block| => block[i]);
      assert buf[..] == block;
      var done := AddEntry(buf, ino, name);
      NotInserted(block, ino, name);
      if done { dir.vol.disk[b] := buf[..]; }
    }
  }

  /** `ext2_vfs_finddir` on the volume, for a directory whose blocks hold whole records. */
  method FindName(dir: OpenFile, name: seq<Byte>, ghost nodes: seq<Node>, ghost d: nat) returns (r: Option<nat>)
    requires d < |nodes| && Intact(dir.Now(nodes, d))
    requires forall b :: b in DirBlocks(dir.vol.disk[..], dir.inode) ==> Scannable(b, 0)
    ensures r == Find(dir.vol.View(), dir.inode, name)
  {
    hide Scannable, Lookup, FileBlock, Owned, BlockCount, HasInode, Entries, DirEntries, Readable;
    FormattedFacts(dir.vol.View());
    var per, count := dir.vol.sb.inodesPerGroup, dir.vol.groups.Length;
    var readable := (ino: nat) => ino > 0 && (ino - 1) / per < count;
    forall ino: nat ensures readable(ino) == Readable(dir.vol.View())(ino) { PlaceReadable(dir.vol.View(), ino); }
    ghost var disk, inode := dir.vol.disk[..], dir.inode;
    LookupSame(DirEntries(DirBlocks(disk, inode)), name, readable, Readable(dir.vol.View()));
    var n := BlockCount(dir.inode);
    for b := 0 to n
      invariant Lookup(DirEntries(DirBlocks(disk, inode)), name, readable) ==
                Lookup(DirEntries(BlocksFrom(disk, inode, b, n)), name, readable)
      invariant forall block :: block in BlocksFrom(disk, inode, b, n) ==> Scannable(block, 0)
    {
      ghost var rest := BlocksFrom(disk, inode, b + 1, n);
      var x := dir.GetFileBlock(b);
      if x == 0 || x >= dir.vol.disk.Length {
        assert BlocksFrom(disk, inode, b, n) == [] + rest == rest;
        continue;
      }
      assert BlocksFrom(disk, inode, b, n) == [dir.vol.disk[x]] + rest;
      assert dir.vol.disk[x] in BlocksFrom(disk, inode, b, n);
      FirstOfBlocks(dir.vol.disk[x], rest, name, readable);
      r := FindInBlock(dir.vol.disk[x], name, readable);
      if r.Some? { return; }
    }
    LookupNothing(name, readable);
    return None;
  }
}
