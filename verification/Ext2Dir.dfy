/**
 Ext2 directories (kernel/fs/ext2/ext2.c): the chain of variable-length records
 in a 1024-byte block, the scans of `finddir` and `readdir`, and the split of a
 record that `create` makes room with.
 */
module Ext2Dir {
  import opened Bytes
  import opened Options
  import opened Ext2Volume
  import opened Ext2Files

  const HALF: nat := 2
  const ONE: nat := 1
  const REGULAR: nat := 1

  // Records

  function Ino(b: seq<Byte>, o: nat): nat { Le(b, o, WORD) }

  function RecLen(b: seq<Byte>, o: nat): nat { Le(b, o + 4, HALF) }

  function NameLen(b: seq<Byte>, o: nat): nat { Le(b, o + 6, ONE) }

  function FileType(b: seq<Byte>, o: nat): nat { Le(b, o + 7, ONE) }

  /** The bytes a record with a name of `n` bytes needs. */
  function Needed(n: nat): nat { 8 + (n + 3) / 4 * 4 }

  /** The record at `o` has room for its name and ends within the block. */
  predicate Fits(b: seq<Byte>, o: nat) {
    Needed(NameLen(b, o)) <= RecLen(b, o) && o + RecLen(b, o) <= |b|
  }

  /** The records from `o` on follow each other to the exact end of the block. */
  predicate Tiles(b: seq<Byte>, o: nat)
    decreases |b| - o
  {
    o == |b| || (Fits(b, o) && Tiles(b, o + RecLen(b, o)))
  }

  datatype Entry = Entry(ino: nat, name: seq<Byte>, ftype: nat)

  function Name(b: seq<Byte>, o: nat): seq<Byte> {
    if o + 8 + NameLen(b, o) <= |b| then b[o + 8..o + 8 + NameLen(b, o)] else []
  }

  /** The record at `o`, if it counts as an entry: the scans skip empty inodes and empty names. */
  function Listed(b: seq<Byte>, o: nat): (es: seq<Entry>)
    ensures |es| <= 1
  {
    if Ino(b, o) != 0 && NameLen(b, o) > 0 then [Entry(Ino(b, o), Name(b, o), FileType(b, o))] else []
  }

  /** What the scans see from `o` on; a record length of zero ends the block. */
  function Entries(b: seq<Byte>, o: nat): seq<Entry>
    decreases |b| - o
  {
    if o >= |b| || RecLen(b, o) == 0 then [] else Listed(b, o) + Entries(b, o + RecLen(b, o))
  }

  // Insertion

  /** The first record from `o` on with room for `need` more bytes. */
  function FindSlack(b: seq<Byte>, o: nat, need: nat): (r: Option<nat>)
    ensures r.Some? ==> r.value < |b| && RecLen(b, r.value) >= Needed(NameLen(b, r.value)) + need
    decreases |b| - o
  {
    if o >= |b| || RecLen(b, o) == 0 then None
    else if RecLen(b, o) >= Needed(NameLen(b, o)) + need then Some(o)
    else FindSlack(b, o + RecLen(b, o), need)
  }

  /** The record at `o`, of length `len`, cut to what it uses, and a new record in the rest. */
  function Split(b: seq<Byte>, o: nat, used: nat, len: nat, ino: nat, name: seq<Byte>): (r: seq<Byte>)
    requires 8 <= used && used + 8 + |name| <= len && o + len <= |b|
    ensures |r| == |b|
  {
    PutBytes(Header(PutLe(b, o + 4, HALF, used), o + used, ino, len - used, |name|), o + used + 8, name)
  }

  function SplitAt(b: seq<Byte>, o: nat, ino: nat, name: seq<Byte>): (r: seq<Byte>)
    requires Fits(b, o) && RecLen(b, o) >= Needed(NameLen(b, o)) + Needed(|name|)
    ensures |r| == |b|
  {
    Split(b, o, Needed(NameLen(b, o)), RecLen(b, o), ino, name)
  }

  /** The fixed part of a new record; the name length is one byte. */
  function Header(b: seq<Byte>, at: nat, ino: nat, len: nat, nameLen: nat): (r: seq<Byte>)
    requires at + 8 <= |b|
    ensures |r| == |b|
  {
    PutLe(PutLe(PutLe(PutLe(b, at, WORD, ino), at + 4, HALF, len), at + 6, ONE, nameLen % 256), at + 7, ONE, REGULAR)
  }

  /** What `create` does to the directory block: a record is split, or nothing changes. */
  function Insert(b: seq<Byte>, ino: nat, name: seq<Byte>): (r: seq<Byte>)
    requires Tiles(b, 0)
  {
    match FindSlack(b, 0, Needed(|name|))
    case None => b
    case Some(o) => SlackFits(b, 0, Needed(|name|)); SplitAt(b, o, ino, name)
  }

  lemma {:induction false} SlackFits(b: seq<Byte>, o: nat, need: nat)
    requires Tiles(b, o) && FindSlack(b, o, need).Some?
    ensures Fits(b, FindSlack(b, o, need).value) && o <= FindSlack(b, o, need).value
    decreases |b| - o
  {
    if RecLen(b, o) < Needed(NameLen(b, o)) + need { SlackFits(b, o + RecLen(b, o), need); }
  }

  // What a split changes

  lemma HeaderFields(b: seq<Byte>, at: nat, ino: nat, len: nat, nameLen: nat)
    requires at + 8 <= |b| && ino < U32 && len < 65536
    ensures var r := Header(b, at, ino, len, nameLen);
            && Ino(r, at) == ino && RecLen(r, at) == len && NameLen(r, at) == nameLen % 256 &&
               FileType(r, at) == REGULAR
            && forall j :: 0 <= j < |b| && !(at <= j < at + 8) ==> r[j] == b[j]
  {
    assert Pow256(4) == 0x1_0000_0000 && Pow256(2) == 65536 && Pow256(1) == 256;
    var b1 := PutLe(b, at, WORD, ino);
    var b2 := PutLe(b1, at + 4, HALF, len);
    var b3 := PutLe(b2, at + 6, ONE, nameLen % 256);
    PutLeReads(b, at, WORD, ino);
    PutLeReads(b1, at + 4, HALF, len);
    PutLeReads(b2, at + 6, ONE, nameLen % 256);
    PutLeReads(b3, at + 7, ONE, REGULAR);
  }

  /** Two blocks with the same bytes from `o` to `end` have the same record there. */
  ghost predicate SameBytes(b: seq<Byte>, r: seq<Byte>, o: nat, end: nat) {
    |r| == |b| && end <= |b| && forall j :: o <= j < end ==> r[j] == b[j]
  }

  lemma SameRecord(b: seq<Byte>, r: seq<Byte>, o: nat, end: nat)
    requires SameBytes(b, r, o, end) && o + 8 + NameLen(b, o) <= end
    ensures Ino(r, o) == Ino(b, o) && RecLen(r, o) == RecLen(b, o) && NameLen(r, o) == NameLen(b, o)
    ensures Listed(r, o) == Listed(b, o)
  {
    LeDependsOnBytes(r, b, o, WORD);
    LeDependsOnBytes(r, b, o + 4, HALF);
    LeDependsOnBytes(r, b, o + 6, ONE);
    LeDependsOnBytes(r, b, o + 7, ONE);
    assert Name(r, o) == Name(b, o);
  }

  /** The bytes of a name that a one-byte length admits. */
  function Stored(name: seq<Byte>): seq<Byte> { name[..|name| % 256] }

  function NewEntries(ino: nat, name: seq<Byte>): seq<Entry> {
    if ino != 0 && |name| % 256 > 0 then [Entry(ino, Stored(name), REGULAR)] else []
  }

  /** Everything a split does, record by record. */
  lemma SplitEffect(b: seq<Byte>, o: nat, used: nat, len: nat, ino: nat, name: seq<Byte>)
    requires used == Needed(NameLen(b, o)) && used + Needed(|name|) <= len && o + len <= |b| && ino < U32 && len < 65536
    ensures var r := Split(b, o, used, len, ino, name);
            && SameBytes(b, r, 0, o) && SameBytes(b, r, o + len, |b|)
            && RecLen(r, o) == used && NameLen(r, o) == NameLen(b, o) && Listed(r, o) == Listed(b, o)
            && RecLen(r, o + used) == len - used && NameLen(r, o + used) == |name| % 256
            && Listed(r, o + used) == NewEntries(ino, name)
  {
    SplitOutside(b, o, used, len, ino, name);
    SplitCut(b, o, used, len, ino, name);
    SplitNew(b, o, used, len, ino, name);
  }

  lemma SplitOutside(b: seq<Byte>, o: nat, used: nat, len: nat, ino: nat, name: seq<Byte>)
    requires 8 <= used && used + 8 + |name| <= len && o + len <= |b|
    ensures var r := Split(b, o, used, len, ino, name); SameBytes(b, r, 0, o) && SameBytes(b, r, o + len, |b|)
  {
  }

  lemma SplitCut(b: seq<Byte>, o: nat, used: nat, len: nat, ino: nat, name: seq<Byte>)
    requires used == Needed(NameLen(b, o)) && used + 8 + |name| <= len && o + len <= |b| && ino < U32 && len < 65536
    ensures var r := Split(b, o, used, len, ino, name);
            RecLen(r, o) == used && NameLen(r, o) == NameLen(b, o) && Listed(r, o) == Listed(b, o)
  {
    hide Header, Listed;
    HeaderFields(PutLe(b, o + 4, HALF, used), o + used, ino, len - used, |name|);
    CutRecord(b, Split(b, o, used, len, ino, name), o, used);
  }

  lemma SplitNew(b: seq<Byte>, o: nat, used: nat, len: nat, ino: nat, name: seq<Byte>)
    requires 8 <= used && used + 8 + |name| <= len && o + len <= |b| && ino < U32 && len < 65536
    ensures var r := Split(b, o, used, len, ino, name);
            && RecLen(r, o + used) == len - used && NameLen(r, o + used) == |name| % 256
            && Listed(r, o + used) == NewEntries(ino, name)
  {
    hide Header, Listed, NewEntries, PutBytes, PutLe;
    var cut := PutLe(b, o + 4, HALF, used);
    HeaderFields(cut, o + used, ino, len - used, |name|);
    NewRecord(Header(cut, o + used, ino, len - used, |name|), Split(b, o, used, len, ino, name), o + used, ino, name);
  }

  lemma CutRecord(b: seq<Byte>, r: seq<Byte>, o: nat, used: nat)
    requires |r| == |b| && used == Needed(NameLen(b, o)) && o + used <= |b| && used < 65536
    requires forall j :: o <= j < o + used && !(o + 4 <= j < o + 6) ==> r[j] == b[j]
    requires forall j :: o + 4 <= j < o + 6 ==> r[j] == LeBytes(used, HALF)[j - (o + 4)]
    ensures RecLen(r, o) == used && NameLen(r, o) == NameLen(b, o) && Listed(r, o) == Listed(b, o)
  {
    hide Needed, Le, LeBytes;
    ShortName(NameLen(b, o));
    HalfRange();
    LeRoundTrip(r, o + 4, HALF, used);
    LeDependsOnBytes(r, b, o, WORD);
    LeDependsOnBytes(r, b, o + 6, ONE);
    LeDependsOnBytes(r, b, o + 7, ONE);
    assert Name(r, o) == Name(b, o);
  }

  lemma HalfRange()
    ensures Pow256(HALF) == 65536
  {
    assert Pow256(2) == 65536;
  }

  lemma NewRecord(header: seq<Byte>, r: seq<Byte>, at: nat, ino: nat, name: seq<Byte>)
    requires at + 8 + |name| <= |header| && r == PutBytes(header, at + 8, name)
    requires Ino(header, at) == ino && NameLen(header, at) == |name| % 256 && FileType(header, at) == REGULAR
    ensures RecLen(r, at) == RecLen(header, at) && NameLen(r, at) == |name| % 256 &&
            Listed(r, at) == NewEntries(ino, name)
  {
    LeDependsOnBytes(r, header, at, WORD);
    LeDependsOnBytes(r, header, at + 4, HALF);
    LeDependsOnBytes(r, header, at + 6, ONE);
    LeDependsOnBytes(r, header, at + 7, ONE);
    assert r[at + 8..at + 8 + |name|] == name;
    assert Name(r, at) == name[..|name| % 256];
  }

  // The chain after an insertion

  lemma ShortName(n: nat)
    ensures 8 <= Needed(n % 256) <= Needed(n) && 8 + n <= Needed(n)
  {
  }

  lemma {:induction false} TailSame(b: seq<Byte>, r: seq<Byte>, o: nat)
    requires Tiles(b, o) && SameBytes(b, r, o, |b|)
    ensures Tiles(r, o) && Entries(r, o) == Entries(b, o)
    decreases |b| - o
  {
    if o != |b| {
      ShortName(NameLen(b, o));
      SameRecord(b, r, o, |b|);
      TailSame(b, r, o + RecLen(b, o));
    }
  }

  /** How many entries come before the new one: those up to and including the record that is split. */
  function Before(b: seq<Byte>, o: nat, need: nat): nat
    decreases |b| - o
  {
    if o >= |b| || RecLen(b, o) == 0 then 0
    else if RecLen(b, o) >= Needed(NameLen(b, o)) + need then |Listed(b, o)|
    else |Listed(b, o)| + Before(b, o + RecLen(b, o), need)
  }

  function Inserted<T>(s: seq<T>, k: nat, x: seq<T>): seq<T>
    requires k <= |s|
  {
    s[..k] + x + s[k..]
  }

  lemma InsertedFirst<T>(a: seq<T>, s: seq<T>, x: seq<T>)
    ensures a + (x + s) == Inserted(a + s, |a|, x)
  {
  }

  lemma InsertedAfter<T>(a: seq<T>, s: seq<T>, k: nat, x: seq<T>)
    requires k <= |s|
    ensures a + Inserted(s, k, x) == Inserted(a + s, |a| + k, x)
  {
  }

  lemma {:induction false} BeforeBound(b: seq<Byte>, o: nat, need: nat)
    ensures Before(b, o, need) <= |Entries(b, o)|
    decreases |b| - o
  {
    if o < |b| && RecLen(b, o) != 0 { BeforeBound(b, o + RecLen(b, o), need); }
  }

  /** At the split record itself. */
  lemma SplitHere(b: seq<Byte>, o: nat, ino: nat, name: seq<Byte>)
    requires Tiles(b, o) && o < |b| && |b| < 65536 && ino < U32
    requires RecLen(b, o) >= Needed(NameLen(b, o)) + Needed(|name|)
    ensures var r := SplitAt(b, o, ino, name);
            Tiles(r, o) && Entries(r, o) == Listed(b, o) + (NewEntries(ino, name) + Entries(b, o + RecLen(b, o)))
  {
    hide SplitAt, Listed, NewEntries, RecLen, NameLen, Needed, Fits;
    var used, len, r := Needed(NameLen(b, o)), RecLen(b, o), SplitAt(b, o, ino, name);
    SplitFacts(b, o, ino, name);
    TailSame(b, r, o + len);
    TwoRecords(r, o, used, len);
  }

  lemma SplitFacts(b: seq<Byte>, o: nat, ino: nat, name: seq<Byte>)
    requires Fits(b, o) && RecLen(b, o) >= Needed(NameLen(b, o)) + Needed(|name|) && |b| < 65536 && ino < U32
    ensures var r, used, len := SplitAt(b, o, ino, name), Needed(NameLen(b, o)), RecLen(b, o);
            && SameBytes(b, r, o + len, |b|) && 0 < used < len
            && Fits(r, o) && RecLen(r, o) == used && Listed(r, o) == Listed(b, o)
            && Fits(r, o + used) && RecLen(r, o + used) == len - used && Listed(r, o + used) == NewEntries(ino, name)
  {
    hide Split, Listed, NewEntries, RecLen, NameLen, Needed;
    ShortName(NameLen(b, o));
    ShortName(|name|);
    SplitEffect(b, o, Needed(NameLen(b, o)), RecLen(b, o), ino, name);
  }

  lemma TwoRecords(r: seq<Byte>, o: nat, used: nat, len: nat)
    requires Fits(r, o) && RecLen(r, o) == used > 0 && Fits(r, o + used) && RecLen(r, o + used) == len - used > 0
    requires Tiles(r, o + len)
    ensures Tiles(r, o) && Entries(r, o) == Listed(r, o) + (Listed(r, o + used) + Entries(r, o + len))
  {
    assert Tiles(r, o + used) && Entries(r, o + used) == Listed(r, o + used) + Entries(r, o + len);
  }

  /** The block still tiles, and the entries are the old ones with the new one among them. */
  lemma {:induction false} SplitChain(b: seq<Byte>, o: nat, ino: nat, name: seq<Byte>, r: seq<Byte>)
    requires Tiles(b, o) && |b| < 65536 && ino < U32 && FindSlack(b, o, Needed(|name|)).Some?
    requires Fits(b, FindSlack(b, o, Needed(|name|)).value) &&
             r == SplitAt(b, FindSlack(b, o, Needed(|name|)).value, ino, name)
    ensures Before(b, o, Needed(|name|)) <= |Entries(b, o)|
    ensures Tiles(r, o) && Entries(r, o) == Inserted(Entries(b, o), Before(b, o, Needed(|name|)), NewEntries(ino, name))
    decreases |b| - o
  {
    hide SplitAt, Listed, NewEntries, RecLen, NameLen, Needed;
    var need := Needed(|name|);
    BeforeBound(b, o, need);
    var next := o + RecLen(b, o);
    if RecLen(b, o) >= Needed(NameLen(b, o)) + need {
      SplitHere(b, o, ino, name);
      InsertedFirst(Listed(b, o), Entries(b, next), NewEntries(ino, name));
    } else {
      SlackFits(b, next, need);
      SplitChain(b, next, ino, name, r);
      BeforeSplit(b, o, ino, name, r);
      InsertedAfter(Listed(b, o), Entries(b, next), Before(b, next, need), NewEntries(ino, name));
    }
  }

  /** A record before the one that is split stays as it is. */
  lemma BeforeSplit(b: seq<Byte>, o: nat, ino: nat, name: seq<Byte>, r: seq<Byte>)
    requires Tiles(b, o) && o < |b| && |b| < 65536 && ino < U32 && FindSlack(b, o, Needed(|name|)).Some?
    requires RecLen(b, o) < Needed(NameLen(b, o)) + Needed(|name|)
    requires Fits(b, FindSlack(b, o, Needed(|name|)).value) &&
             r == SplitAt(b, FindSlack(b, o, Needed(|name|)).value, ino, name)
    ensures Fits(r, o) && RecLen(r, o) == RecLen(b, o) && Listed(r, o) == Listed(b, o)
  {
    hide Needed, Listed, RecLen, NameLen, Split;
    var next := o + RecLen(b, o);
    var at := FindSlack(b, next, Needed(|name|)).value;
    SlackFits(b, next, Needed(|name|));
    ShortName(NameLen(b, o));
    ShortName(NameLen(b, at));
    ShortName(|name|);
    SplitOutside(b, at, Needed(NameLen(b, at)), RecLen(b, at), ino, name);
    SameRecord(b, r, o, at);
  }

  /** Record lengths tile the block after `create`, and its entries are the old ones plus at most the new one. */
  lemma InsertEffect(b: seq<Byte>, ino: nat, name: seq<Byte>)
    requires Tiles(b, 0) && |b| == BLOCK_SIZE && ino < U32
    ensures var r, need := Insert(b, ino, name), Needed(|name|);
            && |r| == BLOCK_SIZE && Tiles(r, 0) && Before(b, 0, need) <= |Entries(b, 0)|
            && Entries(r, 0) == if FindSlack(b, 0, need).None? then Entries(b, 0)
                                else Inserted(Entries(b, 0), Before(b, 0, need), NewEntries(ino, name))
  {
    BeforeBound(b, 0, Needed(|name|));
    if FindSlack(b, 0, Needed(|name|)).Some? {
      SlackFits(b, 0, Needed(|name|));
      SplitChain(b, 0, ino, name, Insert(b, ino, name));
    }
  }

  // Directories

  /** The entries of a directory, block after block. */
  function DirEntries(blocks: seq<seq<Byte>>): seq<Entry> {
    if blocks == [] then [] else Entries(blocks[0], 0) + DirEntries(blocks[1..])
  }

  predicate Matches(e: Entry, name: seq<Byte>, readable: nat -> bool) {
    e.name == name && readable(e.ino)
  }

  /** The inode that `finddir` settles on: the first entry of that name whose inode can be read. */
  function Lookup(es: seq<Entry>, name: seq<Byte>, readable: nat -> bool): Option<nat> {
    if es == [] then None
    else if Matches(es[0], name, readable) then Some(es[0].ino)
    else Lookup(es[1..], name, readable)
  }

  lemma {:induction false} LookupConcat(a: seq<Entry>, b: seq<Entry>, name: seq<Byte>, readable: nat -> bool)
    ensures Lookup(a + b, name, readable) ==
            if Lookup(a, name, readable).Some? then Lookup(a, name, readable) else Lookup(b, name, readable)
  {
    if a == [] {
      assert a + b == b;
    } else {
      assert (a + b)[1..] == a[1..] + b;
      LookupConcat(a[1..], b, name, readable);
    }
  }

  lemma {:induction false} LookupAbsent(es: seq<Entry>, name: seq<Byte>, readable: nat -> bool)
    requires forall e :: e in es ==> e.name != name
    ensures Lookup(es, name, readable) == None
  {
    if es != [] { LookupAbsent(es[1..], name, readable); }
  }

  lemma LookupInserted(es: seq<Entry>, k: nat, x: seq<Entry>, name: seq<Byte>, readable: nat -> bool)
    requires k <= |es|
    ensures Lookup(x, name, readable) == None ==>
              Lookup(Inserted(es, k, x), name, readable) == Lookup(es, name, readable)
    ensures Lookup(es, name, readable) == None ==>
              Lookup(Inserted(es, k, x), name, readable) == Lookup(x, name, readable)
  {
    LookupConcat(es[..k] + x, es[k..], name, readable);
    LookupConcat(es[..k], x, name, readable);
    LookupConcat(es[..k], es[k..], name, readable);
    assert es[..k] + es[k..] == es;
  }

  /** The directory after `create` put its entry into the first block. */
  function Created(blocks: seq<seq<Byte>>, ino: nat, name: seq<Byte>): seq<seq<Byte>>
    requires blocks != [] && Tiles(blocks[0], 0)
  {
    blocks[0 := Insert(blocks[0], ino, name)]
  }

  /** All entries of the directory after `create`: the old ones in order, and the new one after the split record. */
  lemma CreatedEntries(blocks: seq<seq<Byte>>, ino: nat, name: seq<Byte>)
    requires blocks != [] && Tiles(blocks[0], 0) && |blocks[0]| == BLOCK_SIZE && ino < U32
    ensures var k, slack := Before(blocks[0], 0, Needed(|name|)), FindSlack(blocks[0], 0, Needed(|name|));
            && k <= |DirEntries(blocks)|
            && DirEntries(Created(blocks, ino, name)) ==
               Inserted(DirEntries(blocks), k, if slack.Some? then NewEntries(ino, name) else [])
  {
    hide Insert, Needed, FindSlack, Before, Entries, Tiles, NewEntries, Inserted;
    InsertEffect(blocks[0], ino, name);
    var es, rest, k := Entries(blocks[0], 0), DirEntries(blocks[1..]), Before(blocks[0], 0, Needed(|name|));
    assert Created(blocks, ino, name)[1..] == blocks[1..];
    InsertedInFront(es, rest, k, NewEntries(ino, name));
    InsertedInFront(es, rest, k, []);
    InsertedNothing(es, k);
  }

  lemma InsertedNothing<T>(s: seq<T>, k: nat)
    requires k <= |s|
    ensures Inserted(s, k, []) == s
  {
  }

  lemma InsertedInFront<T>(a: seq<T>, s: seq<T>, k: nat, x: seq<T>)
    requires k <= |a|
    ensures Inserted(a, k, x) + s == Inserted(a + s, k, x)
  {
  }

  /**
   After `create` of an absent name, `finddir` finds it exactly when some record of the first
   block had room and the name has 1 to 255 bytes; every other name is found where it was.
   */
  lemma CreateFinds(blocks: seq<seq<Byte>>, ino: nat, name: seq<Byte>, readable: nat -> bool)
    requires blocks != [] && Tiles(blocks[0], 0) && |blocks[0]| == BLOCK_SIZE && 0 < ino < U32 && readable(ino)
    requires forall e :: e in DirEntries(blocks) ==> e.name != name
    ensures var es := DirEntries(Created(blocks, ino, name));
            && (Lookup(es, name, readable) == Some(ino) <==>
                FindSlack(blocks[0], 0, Needed(|name|)).Some? && 1 <= |name| <= 255)
            && (forall other :: other != Stored(name) ==>
                                  Lookup(es, other, readable) == Lookup(DirEntries(blocks), other, readable))
  {
    hide Needed, FindSlack, Before, Entries, Tiles, Inserted, Lookup, DirEntries, Created, Stored, NewEntries;
    var es, k := DirEntries(blocks), Before(blocks[0], 0, Needed(|name|));
    var x := if FindSlack(blocks[0], 0, Needed(|name|)).Some? then NewEntries(ino, name) else [];
    CreatedEntries(blocks, ino, name);
    LookupAbsent(es, name, readable);
    LookupInserted(es, k, x, name, readable);
    NewLookup(ino, name, name, readable);
    forall other | other != Stored(name)
      ensures Lookup(Inserted(es, k, x), other, readable) == Lookup(es, other, readable)
    {
      NewLookup(ino, name, other, readable);
      LookupInserted(es, k, x, other, readable);
    }
  }

  lemma NewLookup(ino: nat, name: seq<Byte>, other: seq<Byte>, readable: nat -> bool)
    requires ino > 0 && readable(ino)
    ensures Lookup(NewEntries(ino, name), other, readable) ==
            if |name| % 256 > 0 && other == Stored(name) then Some(ino) else None
    ensures name == Stored(name) <==> |name| <= 255
    ensures Lookup([], other, readable) == None
  {
  }

  /** A block of zeros has no records: `create` leaves it as it is, and still reports success. */
  lemma ZeroedBlock(b: seq<Byte>, need: nat)
    requires |b| == BLOCK_SIZE && forall j :: 0 <= j < |b| ==> b[j] == 0
    ensures RecLen(b, 0) == 0 && Entries(b, 0) == [] && FindSlack(b, 0, need) == None
  {
    assert Le(b, 4, 2) == 0;
  }

  // The scans and the insertion in place

  /** The scans read only whole records: the chain ends at the end of the block or at a zero length. */
  predicate Scannable(b: seq<Byte>, o: nat)
    decreases |b| - o
  {
    o == |b| || (o + 8 <= |b| && (RecLen(b, o) == 0 || (Fits(b, o) && Scannable(b, o + RecLen(b, o)))))
  }

  /** `ext2_vfs_finddir` over the blocks of a directory that can be read, in order. */
  method FindDir(blocks: seq<seq<Byte>>, name: seq<Byte>, readable: nat -> bool) returns (r: Option<nat>)
    requires forall i :: 0 <= i < |blocks| ==> Scannable(blocks[i], 0)
    ensures r == Lookup(DirEntries(blocks), name, readable)
  {
    hide Entries, Scannable, Matches;
    for i := 0 to |blocks|
      invariant Lookup(DirEntries(blocks), name, readable) == Lookup(DirEntries(blocks[i..]), name, readable)
    {
      LookupConcat(Entries(blocks[i], 0), DirEntries(blocks[i + 1..]), name, readable);
      assert blocks[i..][1..] == blocks[i + 1..];
      r := FindInBlock(blocks[i], name, readable);
      if r.Some? { return; }
    }
    return None;
  }

  method FindInBlock(b: seq<Byte>, name: seq<Byte>, readable: nat -> bool) returns (r: Option<nat>)
    requires Scannable(b, 0)
    ensures r == Lookup(Entries(b, 0), name, readable)
  {
    hide RecLen, NameLen, Ino, FileType, Needed;
    var o := 0;
    while o < |b|
      invariant o <= |b| && Scannable(b, o)
      invariant Lookup(Entries(b, 0), name, readable) == Lookup(Entries(b, o), name, readable)
    {
      if RecLen(b, o) == 0 { break; }
      ShortName(NameLen(b, o));
      LookupConcat(Listed(b, o), Entries(b, o + RecLen(b, o)), name, readable);
      if Ino(b, o) != 0 && NameLen(b, o) > 0 {
        if |name| == NameLen(b, o) && name == b[o + 8..o + 8 + NameLen(b, o)] && readable(Ino(b, o)) {
          return Some(Ino(b, o));
        }
      }
      o := o + RecLen(b, o);
    }
    return None;
  }

  /** `ext2_vfs_readdir` */
  method ReadDir(blocks: seq<seq<Byte>>, index: nat) returns (r: Option<Entry>)
    requires forall i :: 0 <= i < |blocks| ==> Scannable(blocks[i], 0)
    ensures r == if index < |DirEntries(blocks)| then Some(DirEntries(blocks)[index]) else None
  {
    hide Entries, Scannable;
    var seen := 0;
    ghost var head := [];
    assert blocks[0..] == blocks;
    for i := 0 to |blocks|
      invariant 0 <= seen <= index && |head| == seen && head + DirEntries(blocks[i..]) == DirEntries(blocks)
    {
      assert blocks[i..][1..] == blocks[i + 1..];
      ghost var es := Entries(blocks[i], 0);
      r, seen := ReadBlock(blocks[i], index, seen);
      Regroup(head, es, DirEntries(blocks[i + 1..]));
      if r.Some? { return; }
      head := head + es;
    }
    return None;
  }

  lemma Regroup<T>(a: seq<T>, b: seq<T>, c: seq<T>)
    ensures a + (b + c) == (a + b) + c
    ensures forall k :: |a| <= k < |a| + |b| ==> (a + (b + c))[k] == b[k - |a|]
  {
  }

  /** One block of the scan, `seen` entries having gone before. */
  method ReadBlock(b: seq<Byte>, index: nat, seen: nat) returns (r: Option<Entry>, after: nat)
    requires Scannable(b, 0) && seen <= index
    ensures if index - seen < |Entries(b, 0)| then r == Some(Entries(b, 0)[index - seen])
            else r == None && after == seen + |Entries(b, 0)|
  {
    hide RecLen, Ino, NameLen, Name, FileType, Needed;
    var o := 0;
    after := seen;
    ghost var head := [];
    while o < |b|
      invariant o <= |b| && Scannable(b, o) && |head| == after - seen && after <= index
      invariant head + Entries(b, o) == Entries(b, 0)
    {
      if RecLen(b, o) == 0 { break; }
      Regroup(head, Listed(b, o), Entries(b, o + RecLen(b, o)));
      if Ino(b, o) != 0 && NameLen(b, o) > 0 {
        if after == index {
          return Some(Entry(Ino(b, o), Name(b, o), FileType(b, o))), after;
        }
        after := after + 1;
      }
      head := head + Listed(b, o);
      o := o + RecLen(b, o);
    }
    return None, after;
  }

  /** The loop of `ext2_vfs_create` over the records of the directory block. */
  method AddEntry(buf: array<Byte>, ino: nat, name: seq<Byte>) returns (done: bool)
    requires Tiles(buf[..], 0)
    modifies buf
    ensures done == FindSlack(old(buf[..]), 0, Needed(|name|)).Some?
    ensures buf[..] == Insert(old(buf[..]), ino, name)
  {
    hide RecLen, NameLen, Needed, Split;
    ghost var b := buf[..];
    var need, o := Needed(|name|), 0;
    ShortName(|name|);
    while o < buf.Length
      invariant o <= buf.Length && buf[..] == b && Tiles(b, o) && FindSlack(b, 0, need) == FindSlack(b, o, need)
    {
      var len := RecLen(buf[..], o);
      if len == 0 { break; }
      var used := Needed(NameLen(buf[..], o));
      if len >= used + need {
        ShortName(NameLen(b, o));
        SplitInPlace(buf, o, used, len, ino, name);
        return true;
      }
      o := o + len;
    }
    return false;
  }

  /** The stores that cut a record and write the new one behind it. */
  method SplitInPlace(buf: array<Byte>, o: nat, used: nat, len: nat, ino: nat, name: seq<Byte>)
    requires 8 <= used && used + 8 + |name| <= len && o + len <= buf.Length
    modifies buf
    ensures buf[..] == Split(old(buf[..]), o, used, len, ino, name)
  {
    hide PutLe, PutBytes, LeBytes;
    var at := o + used;
    StoreWord(buf, o + 4, HALF, used);
    StoreWord(buf, at, WORD, ino);
    StoreWord(buf, at + 4, HALF, len - used);
    StoreWord(buf, at + 6, ONE, |name| % 256);
    StoreWord(buf, at + 7, ONE, REGULAR);
    Store(buf, at + 8, name);
  }

  method StoreWord(buf: array<Byte>, i: nat, n: nat, v: nat)
    requires i + n <= buf.Length
    modifies buf
    ensures buf[..] == PutLe(old(buf[..]), i, n, v)
  {
    Store(buf, i, LeBytes(v, n));
  }

  method Store(buf: array<Byte>, i: nat, bytes: seq<Byte>)
    requires i + |bytes| <= buf.Length
    modifies buf
    ensures buf[..] == PutBytes(old(buf[..]), i, bytes)
  {
    for k := 0 to |bytes|
      invariant forall j :: 0 <= j < buf.Length ==>
                              buf[j] == if i <= j < i + k then bytes[j - i] else old(buf[j])
    {
      buf[i + k] := bytes[k];
    }
  }
}
