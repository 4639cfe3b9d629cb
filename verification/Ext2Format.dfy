/**
 A directory block written down record by record, after the layout of
 `ext2_dir_entry_2_t` in kernel/fs/ext2/ext2.h: the scans read back what was
 written, and an insertion is the replacement of one record by two.
 */
module Ext2Format {
  import opened Bytes
  import opened Options
  import opened Ext2Volume
  import opened Ext2Dir

  /** An entry and the length of its record, unused bytes included. */
  datatype Record = Record(entry: Entry, len: nat)

  predicate Proper(r: Record) {
    && r.entry.ino < 0x1_0000_0000 && |r.entry.name| < 256 && r.entry.ftype < 256
    && Needed(|r.entry.name|) <= r.len < 65536
  }

  predicate AllProper(rs: seq<Record>) {
    forall k :: 0 <= k < |rs| ==> Proper(rs[k])
  }

  /** Inode, record length, name length and type. */
  function Head(ino: nat, len: nat, n: nat, ftype: nat): (s: seq<Byte>)
    requires ino < 0x1_0000_0000 && len < 65536 && n < 256 && ftype < 256
    ensures |s| == 8
  {
    [ino % 256, ino / 256 % 256, ino / 65536 % 256, ino / 16777216] + [len % 256, len / 256] + [n, ftype]
  }

  /** The head, the name, and zeros up to the length. */
  function RecordBytes(r: Record): (s: seq<Byte>)
    requires Proper(r)
    ensures |s| == r.len
  {
    var n := |r.entry.name|;
    Head(r.entry.ino, r.len, n, r.entry.ftype) + r.entry.name + seq(r.len - 8 - n, _ => 0)
  }

  function Pack(rs: seq<Record>): seq<Byte>
    requires AllProper(rs)
  {
    if rs == [] then [] else RecordBytes(rs[0]) + Pack(rs[1..])
  }

  /** The entries that count: an inode and a name. */
  function Visible(rs: seq<Record>): seq<Entry> {
    if rs == [] then []
    else (if rs[0].entry.ino != 0 && rs[0].entry.name != [] then [rs[0].entry] else []) + Visible(rs[1..])
  }

  // Reading

  /** `b` holds the record at `o`. */
  ghost predicate HasRecord(b: seq<Byte>, o: nat, r: Record)
    requires Proper(r)
  {
    o + r.len <= |b| && b[o..o + r.len] == RecordBytes(r)
  }

  lemma RecordFields(b: seq<Byte>, o: nat, r: Record)
    requires Proper(r) && HasRecord(b, o, r)
    ensures Ino(b, o) == r.entry.ino && RecLen(b, o) == r.len && NameLen(b, o) == |r.entry.name|
    ensures FileType(b, o) == r.entry.ftype && Name(b, o) == r.entry.name
  {
    hide Le;
    var s, n := RecordBytes(r), |r.entry.name|;
    forall j | 0 <= j < r.len ensures b[o + j] == s[j] { assert b[o..o + r.len][j] == s[j]; }
    Spelled(b, o);
    Spelled(b, o + 4);
    LastFields(b, o);
    Digits(r.entry.ino);
    assert s[8..8 + n] == r.entry.name;
    assert b[o + 8..o + 8 + n] == s[8..8 + n];
  }

  lemma LastFields(b: seq<Byte>, o: nat)
    requires o + 8 <= |b|
    ensures NameLen(b, o) == b[o + 6] && FileType(b, o) == b[o + 7]
  {
    assert Le(b, o + 7, 0) == 0 && Le(b, o + 8, 0) == 0;
  }

  lemma Digits(i: nat)
    requires i < 0x1_0000_0000
    ensures i / 16777216 < 256
    ensures i % 256 + 256 * (i / 256 % 256) + 65536 * (i / 65536 % 256) + 16777216 * (i / 16777216) == i
  {
    assert i / 65536 == i / 256 / 256 && i / 16777216 == i / 65536 / 256;
  }

  lemma Packed(before: seq<Byte>, rs: seq<Record>)
    requires AllProper(rs) && rs != []
    ensures HasRecord(before + Pack(rs), |before|, rs[0])
    ensures before + Pack(rs) == before + RecordBytes(rs[0]) + Pack(rs[1..])
  {
    hide RecordBytes;
    var b := before + Pack(rs);
    assert b == before + RecordBytes(rs[0]) + Pack(rs[1..]);
    assert b[|before|..|before| + rs[0].len] == RecordBytes(rs[0]);
  }

  /** One record of a scan. */
  lemma ScanRecord(b: seq<Byte>, o: nat, r: Record)
    requires Proper(r) && HasRecord(b, o, r)
    ensures Entries(b, o) == Visible([r]) + Entries(b, o + r.len)
    ensures Tiles(b, o) <==> Tiles(b, o + r.len)
  {
    hide RecordBytes, Needed, HasRecord, Ino, RecLen, NameLen, FileType, Name;
    RecordFields(b, o, r);
    NeedsSome(|r.entry.name|);
    HasLength(b, o, r);
    assert Visible([r][1..]) == [];
  }

  lemma HasLength(b: seq<Byte>, o: nat, r: Record)
    requires Proper(r) && HasRecord(b, o, r)
    ensures 0 < r.len <= |b| - o
  {
  }

  /** The scans see the entries that were written, in order, and the records tile the block. */
  lemma {:induction false} PackedReads(before: seq<Byte>, rs: seq<Record>)
    requires AllProper(rs)
    ensures Entries(before + Pack(rs), |before|) == Visible(rs) && Tiles(before + Pack(rs), |before|)
    decreases |rs|
  {
    hide RecordBytes, HasRecord, Entries, Tiles;
    if rs != [] {
      Packed(before, rs);
      ScanRecord(before + Pack(rs), |before|, rs[0]);
      PackedReads(before + RecordBytes(rs[0]), rs[1..]);
      assert [rs[0]][1..] == [];
    } else {
      ScanEnd(before + Pack(rs));
    }
  }

  lemma ScanEnd(b: seq<Byte>)
    ensures Entries(b, |b|) == [] && Tiles(b, |b|)
  {
  }

  /** The room for a name: its bytes and the eight before them, up to the next multiple of four. */
  lemma NeedsSome(n: nat)
    ensures 8 + n <= Needed(n) < 12 + n && Needed(n) % 4 == 0
  {
  }

  // Writing

  /** The first record with room for the name is cut to what it needs, and the rest of it is the new record. */
  function WithEntry(rs: seq<Record>, ino: nat, name: seq<Byte>): (t: seq<Record>)
    requires AllProper(rs) && ino < 0x1_0000_0000 && |name| < 256
    ensures AllProper(t)
  {
    if rs == [] then []
    else
      var r, used := rs[0], Needed(|rs[0].entry.name|);
      if r.len >= used + Needed(|name|)
      then [Record(r.entry, used), Record(Entry(ino, name, 1), r.len - used)] + rs[1..]
      else [r] + WithEntry(rs[1..], ino, name)
  }

  lemma WordBytes(v: nat)
    ensures LeBytes(v, 1) == [v % 256] && LeBytes(v, 2) == [v % 256, v / 256 % 256]
    ensures LeBytes(v, 4) == [v % 256, v / 256 % 256, v / 65536 % 256, v / 16777216 % 256]
  {
    assert v / 65536 == v / 256 / 256 && v / 16777216 == v / 65536 / 256;
    assert LeBytes(v / 16777216, 1) == [v / 16777216 % 256] + LeBytes(v / 16777216 / 256, 0);
    assert LeBytes(v / 65536, 2) == [v / 65536 % 256] + LeBytes(v / 16777216, 1);
    assert LeBytes(v / 256, 3) == [v / 256 % 256] + LeBytes(v / 65536, 2);
    assert LeBytes(v / 256, 1) == [v / 256 % 256] + LeBytes(v / 65536, 0);
  }

  /** The eight bytes of a new record. */
  lemma HeaderBytes(b: seq<Byte>, at: nat, ino: nat, len: nat, n: nat)
    requires at + 8 <= |b| && ino < 0x1_0000_0000 && len < 65536 && n < 256
    ensures Header(b, at, ino, len, n)[at..at + 8] == Head(ino, len, n, 1)
    ensures forall j :: 0 <= j < |b| && !(at <= j < at + 8) ==> Header(b, at, ino, len, n)[j] == b[j]
  {
    hide LeBytes;
    WordBytes(ino);
    WordBytes(len);
    WordBytes(n);
    WordBytes(1);
  }

  lemma RecordIs(s: seq<Byte>, r: Record)
    requires Proper(r) && |s| == r.len
    requires s[..8] == Head(r.entry.ino, r.len, |r.entry.name|, r.entry.ftype)
    requires s[8..8 + |r.entry.name|] == r.entry.name && forall j :: 8 + |r.entry.name| <= j < |s| ==> s[j] == 0
    ensures s == RecordBytes(r)
  {
    hide Head;
    assert s == s[..8] + s[8..8 + |r.entry.name|] + s[8 + |r.entry.name|..];
  }

  /** A record whose length alone was changed. */
  lemma CutBytes(s: seq<Byte>, r: Record, used: nat)
    requires Proper(r) && 8 + |r.entry.name| <= used == Needed(|r.entry.name|) <= r.len && |s| == used
    requires s[4..6] == LeBytes(used, HALF)
    requires forall j :: 0 <= j < used && !(4 <= j < 6) ==> s[j] == RecordBytes(r)[j]
    ensures s == RecordBytes(Record(r.entry, used))
  {
    hide LeBytes, Needed;
    WordBytes(used);
    var t, n := RecordBytes(r), |r.entry.name|;
    assert s[4] == used % 256 && s[5] == used / 256 % 256;
    assert s[..8] == Head(r.entry.ino, used, n, r.entry.ftype);
    assert s[8..8 + n] == t[8..8 + n] == r.entry.name;
    RecordIs(s, Record(r.entry, used));
  }

  /** A split turns the bytes of one record into those of two. */
  lemma SplitBytes(before: seq<Byte>, r: Record, after: seq<Byte>, ino: nat, name: seq<Byte>)
    requires Proper(r) && ino < 0x1_0000_0000 && |name| < 256
    requires r.len >= Needed(|r.entry.name|) + Needed(|name|)
    ensures var used := Needed(|r.entry.name|);
            Split(before + RecordBytes(r) + after, |before|, used, r.len, ino, name) ==
            before + RecordBytes(Record(r.entry, used)) + RecordBytes(Record(Entry(ino, name, 1), r.len - used)) + after
  {
    hide Split, Header, LeBytes, Needed, Head, RecordBytes, HasRecord;
    var o, used, b := |before|, Needed(|r.entry.name|), before + RecordBytes(r) + after;
    NeedsSome(|r.entry.name|);
    NeedsSome(|name|);
    RecordInside(before, r, after);
    var t := Split(b, o, used, r.len, ino, name);
    SplitOutside(b, o, used, r.len, ino, name);
    assert t[..o] == b[..o] == before && t[o + r.len..] == b[o + r.len..] == after;
    SplitHalves(b, o, r, used, ino, name);
    assert t == t[..o] + t[o..o + used] + t[o + used..o + r.len] + t[o + r.len..];
  }

  lemma RecordInside(before: seq<Byte>, r: Record, after: seq<Byte>)
    requires Proper(r)
    ensures HasRecord(before + RecordBytes(r) + after, |before|, r)
  {
    hide RecordBytes;
  }

  lemma SplitHalves(b: seq<Byte>, o: nat, r: Record, used: nat, ino: nat, name: seq<Byte>)
    requires Proper(r) && HasRecord(b, o, r) && used == Needed(|r.entry.name|)
    requires ino < 0x1_0000_0000 && |name| < 256 && r.len >= used + Needed(|name|)
    ensures 8 <= used && used + 8 + |name| <= r.len && o + r.len <= |b|
    ensures var t := Split(b, o, used, r.len, ino, name);
            && t[o..o + used] == RecordBytes(Record(r.entry, used))
            && t[o + used..o + r.len] == RecordBytes(Record(Entry(ino, name, 1), r.len - used))
  {
    hide Header, LeBytes, Needed, Head, RecordBytes, PutLe;
    NeedsSome(|r.entry.name|);
    NeedsSome(|name|);
    var cut := PutLe(b, o + 4, HALF, used);
    var h := Header(cut, o + used, ino, r.len - used, |name|);
    HeaderBytes(cut, o + used, ino, r.len - used, |name|);
    FirstHalf(b, o, r, used, Split(b, o, used, r.len, ino, name));
    SecondHalf(b, o, r, used, Split(b, o, used, r.len, ino, name), h, ino, name);
  }

  lemma FirstHalf(b: seq<Byte>, o: nat, r: Record, used: nat, t: seq<Byte>)
    requires Proper(r) && HasRecord(b, o, r) && used == Needed(|r.entry.name|) <= r.len && |t| == |b|
    requires forall j :: o <= j < o + used ==> t[j] == PutLe(b, o + 4, HALF, used)[j]
    ensures t[o..o + used] == RecordBytes(Record(r.entry, used))
  {
    hide LeBytes, Needed, RecordBytes;
    NeedsSome(|r.entry.name|);
    var s := t[o..o + used];
    assert s[4] == LeBytes(used, HALF)[0] && s[5] == LeBytes(used, HALF)[1];
    assert s[4..6] == LeBytes(used, HALF);
    forall j | 0 <= j < used && !(4 <= j < 6) ensures s[j] == RecordBytes(r)[j] {
      assert b[o..o + r.len][j] == RecordBytes(r)[j];
    }
    CutBytes(s, r, used);
  }

  lemma SliceOfSlice(t: seq<Byte>, a: nat, b: nat, c: nat, d: nat)
    requires a <= b <= |t| && c <= d <= b - a
    ensures t[a..b][c..d] == t[a + c..a + d]
  {
    var x, y := t[a..b][c..d], t[a + c..a + d];
    forall j | 0 <= j < d - c ensures x[j] == y[j] { assert x[j] == t[a..b][c + j] == t[a + c + j]; }
  }

  lemma SecondHalf(b: seq<Byte>, o: nat, r: Record, used: nat, t: seq<Byte>, h: seq<Byte>, ino: nat, name: seq<Byte>)
    requires Proper(r) && HasRecord(b, o, r) && used == Needed(|r.entry.name|) && |h| == |b|
    requires ino < 0x1_0000_0000 && |name| < 256 && r.len >= used + Needed(|name|)
    requires h[o + used..o + used + 8] == Head(ino, r.len - used, |name|, 1)
    requires o + used + 8 + |name| <= |h| && t == PutBytes(h, o + used + 8, name)
    requires forall j :: o + used + 8 <= j < |b| ==> h[j] == b[j]
    ensures t[o + used..o + r.len] == RecordBytes(Record(Entry(ino, name, 1), r.len - used))
  {
    hide Needed, Head, PutBytes;
    NeedsSome(|r.entry.name|);
    NeedsSome(|name|);
    var s, n := t[o + used..o + r.len], |name|;
    assert s[..8] == h[o + used..o + used + 8];
    SliceOfSlice(t, o + used, o + r.len, 8, 8 + n);
    forall j | 8 + n <= j < |s| ensures s[j] == 0 {
      assert s[j] == b[o + used + j] == b[o..o + r.len][used + j];
    }
    RecordIs(s, Record(Entry(ino, name, 1), r.len - used));
  }

  /**
   `create`'s search and split, from any record on: without room nothing happens, otherwise the records are those
   of `WithEntry`.
   */
  lemma {:induction false} SplitFound(before: seq<Byte>, rs: seq<Record>, ino: nat, name: seq<Byte>)
    requires AllProper(rs) && ino < 0x1_0000_0000 && |name| < 256
    ensures var b := before + Pack(rs);
            match FindSlack(b, |before|, Needed(|name|))
            case None => WithEntry(rs, ino, name) == rs
            case Some(o) => Fits(b, o) && SplitAt(b, o, ino, name) == before + Pack(WithEntry(rs, ino, name))
    decreases |rs|
  {
    hide Pack, WithEntry, RecordBytes, HasRecord, Needed, FindSlack, Fits, SplitAt;
    if rs == [] {
      NoSlack(before, ino, name);
    } else {
      Packed(before, rs);
      SlackRecord(before + Pack(rs), |before|, rs[0], Needed(|name|));
      if rs[0].len >= Needed(|rs[0].entry.name|) + Needed(|name|) {
        SplitHere(before, rs, ino, name);
      } else {
        SplitFound(before + RecordBytes(rs[0]), rs[1..], ino, name);
        EntryLater(before, rs, ino, name);
      }
    }
  }

  lemma SplitHere(before: seq<Byte>, rs: seq<Record>, ino: nat, name: seq<Byte>)
    requires AllProper(rs) && rs != [] && ino < 0x1_0000_0000 && |name| < 256
    requires rs[0].len >= Needed(|rs[0].entry.name|) + Needed(|name|)
    ensures var b := before + Pack(rs);
            && Fits(b, |before|) && RecLen(b, |before|) >= Needed(NameLen(b, |before|)) + Needed(|name|)
            && SplitAt(b, |before|, ino, name) == before + Pack(WithEntry(rs, ino, name))
  {
    hide Pack, WithEntry, RecordBytes, HasRecord, Needed, FindSlack, Fits, Split;
    Packed(before, rs);
    SlackRecord(before + Pack(rs), |before|, rs[0], 0);
    SplitBytes(before, rs[0], Pack(rs[1..]), ino, name);
    TwoRecords(rs, ino, name);
    var used := Needed(|rs[0].entry.name|);
    var x, y := RecordBytes(Record(rs[0].entry, used)), RecordBytes(Record(Entry(ino, name, 1), rs[0].len - used));
    assert before + (x + y + Pack(rs[1..])) == before + x + y + Pack(rs[1..]);
  }

  lemma EntryLater(before: seq<Byte>, rs: seq<Record>, ino: nat, name: seq<Byte>)
    requires AllProper(rs) && rs != [] && ino < 0x1_0000_0000 && |name| < 256
    requires rs[0].len < Needed(|rs[0].entry.name|) + Needed(|name|)
    ensures WithEntry(rs, ino, name) == [rs[0]] + WithEntry(rs[1..], ino, name)
    ensures before + RecordBytes(rs[0]) + Pack(WithEntry(rs[1..], ino, name)) == before + Pack(WithEntry(rs, ino, name))
  {
    hide Pack, RecordBytes, Needed;
    OneRecord(rs[0], WithEntry(rs[1..], ino, name));
    assert before + (RecordBytes(rs[0]) + Pack(WithEntry(rs[1..], ino, name))) ==
           before + RecordBytes(rs[0]) + Pack(WithEntry(rs[1..], ino, name));
  }

  lemma NoSlack(before: seq<Byte>, ino: nat, name: seq<Byte>)
    requires ino < 0x1_0000_0000 && |name| < 256
    ensures FindSlack(before + Pack([]), |before|, Needed(|name|)) == None && WithEntry([], ino, name) == []
  {
  }

  lemma SlackRecord(b: seq<Byte>, o: nat, r: Record, need: nat)
    requires Proper(r) && HasRecord(b, o, r)
    ensures FindSlack(b, o, need) ==
            if r.len >= Needed(|r.entry.name|) + need then Some(o) else FindSlack(b, o + r.len, need)
    ensures Fits(b, o) && NameLen(b, o) == |r.entry.name| && RecLen(b, o) == r.len
  {
    hide RecordBytes, HasRecord, Needed, RecLen, NameLen;
    RecordFields(b, o, r);
    NeedsSome(|r.entry.name|);
    HasLength(b, o, r);
  }

  lemma OneRecord(r: Record, rs: seq<Record>)
    requires Proper(r) && AllProper(rs)
    ensures Pack([r] + rs) == RecordBytes(r) + Pack(rs)
  {
    hide RecordBytes;
    assert ([r] + rs)[1..] == rs;
  }

  lemma TwoRecords(rs: seq<Record>, ino: nat, name: seq<Byte>)
    requires AllProper(rs) && rs != [] && ino < 0x1_0000_0000 && |name| < 256
    requires rs[0].len >= Needed(|rs[0].entry.name|) + Needed(|name|)
    ensures var used := Needed(|rs[0].entry.name|);
            Pack(WithEntry(rs, ino, name)) ==
            RecordBytes(Record(rs[0].entry, used)) + RecordBytes(Record(Entry(ino, name, 1), rs[0].len - used)) +
            Pack(rs[1..])
  {
    hide Pack, RecordBytes, Needed;
    var used := Needed(|rs[0].entry.name|);
    var x, y := Record(rs[0].entry, used), Record(Entry(ino, name, 1), rs[0].len - used);
    NeedsSome(|rs[0].entry.name|);
    assert WithEntry(rs, ino, name) == [x] + ([y] + rs[1..]);
    OneRecord(y, rs[1..]);
    OneRecord(x, [y] + rs[1..]);
    assert RecordBytes(x) + (RecordBytes(y) + Pack(rs[1..])) == RecordBytes(x) + RecordBytes(y) + Pack(rs[1..]);
  }

  /** On a directory block written as records, `create` is the replacement of one record by two. */
  lemma InsertPacked(rs: seq<Record>, ino: nat, name: seq<Byte>)
    requires AllProper(rs) && ino < 0x1_0000_0000 && |name| < 256
    ensures Tiles(Pack(rs), 0) && Insert(Pack(rs), ino, name) == Pack(WithEntry(rs, ino, name))
  {
    hide Pack, RecordBytes, FindSlack, SplitAt, WithEntry;
    assert [] + Pack(rs) == Pack(rs);
    PackedReads([], rs);
    SplitFound([], rs, ino, name);
    assert [] + Pack(WithEntry(rs, ino, name)) == Pack(WithEntry(rs, ino, name));
  }

  predicate Aligned(rs: seq<Record>) {
    forall k :: 0 <= k < |rs| ==> rs[k].len % 4 == 0
  }

  /** Record lengths stay multiples of four. */
  lemma {:induction false} StaysAligned(rs: seq<Record>, ino: nat, name: seq<Byte>)
    requires AllProper(rs) && ino < 0x1_0000_0000 && |name| < 256 && Aligned(rs)
    ensures Aligned(WithEntry(rs, ino, name))
  {
    hide Needed;
    if rs != [] {
      var used := Needed(|rs[0].entry.name|);
      NeedsSome(|rs[0].entry.name|);
      if rs[0].len >= used + Needed(|name|) {
        Fours(rs[0].len, used);
        var x, y := Record(rs[0].entry, used), Record(Entry(ino, name, 1), rs[0].len - used);
        assert WithEntry(rs, ino, name) == [x, y] + rs[1..];
      } else {
        StaysAligned(rs[1..], ino, name);
        assert WithEntry(rs, ino, name) == [rs[0]] + WithEntry(rs[1..], ino, name);
      }
    }
  }

  lemma Fours(x: nat, y: nat)
    requires x % 4 == 0 && y % 4 == 0
    ensures (x - y) % 4 == 0
  {
  }
}
