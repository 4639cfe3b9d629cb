/**
 The four-level x86_64 page table kept in pool frames: the hardware walk over
 the bytes of physical memory, the tree invariant, and how one table write
 changes the walk.
 */
module PageTree {
  import opened Bytes
  import opened Frames
  import opened Options

  /** Virtual pages are numbered by bits 12 to 47 of their address. */
  const VIRTUAL_PAGES: nat := 0x10_0000_0000

  function PageOf(virt: nat): nat {
    (virt / 4096) % 0x10_0000_0000
  }

  /** The PML4 is the table of level 4; page tables proper are level 1. */
  const LEVELS: nat := 4

  predicate Present(e: nat) { e % 2 == 1 }

  predicate Huge(e: nat) { (e / 128) % 2 == 1 }

  /** Entry `k` of the table in pool frame `f`. */
  function Entry(m: seq<Byte>, f: nat, k: nat): nat {
    Le(m, f * 4096 + k * 8, 8)
  }

  /** The pool frame an entry's address field points at; outside `0..MAX_PAGES` if it is not in the pool. */
  function Target(e: nat): int {
    e / 4096 - 8192
  }

  /** `vp` without its `n` lowest nine-bit indices. */
  function Up(vp: nat, n: nat): nat {
    if n == 0 then vp else Up(vp, n - 1) / 512
  }

  /** The index `vp` uses in a table of the given level; the PML4 is level 4. */
  function Index(vp: nat, level: nat): (k: nat)
    requires level > 0
    ensures k < 512
  {
    Up(vp, level - 1) % 512
  }

  /** The hardware walk: the page-table entry in force for `vp`, or None if some upper level is not present. */
  function Walk(m: seq<Byte>, f: nat, level: nat, vp: nat): Option<nat>
    requires level > 0
    decreases level
  {
    var e := Entry(m, f, Index(vp, level));
    if level == 1 then Some(e)
    else if !Present(e) then None
    else if level == 2 && Huge(e) then Some(e - e % 0x20_0000 + (vp % 512) * 4096 + e % 128)
    else if 0 <= Target(e) < MAX_PAGES then Walk(m, Target(e), level - 1, vp)
    else None
  }

  datatype Mapping = Mapping(phys: nat, flags: nat)

  function Decode(leaf: Option<nat>): Option<Mapping> {
    if leaf.Some? && Present(leaf.value)
    then Some(Mapping(leaf.value / 4096 * 4096, leaf.value % 4096))
    else None
  }

  /** What the processor makes of virtual page `vp`. */
  function Translate(m: seq<Byte>, root: nat, vp: nat): Option<Mapping> {
    Decode(Walk(m, root, LEVELS, vp))
  }

  // The walk as the processor's manual has it

  /** The page with these four nine-bit indices. */
  function PageAt(a: nat, b: nat, c: nat, d: nat): nat {
    ((a * 512 + b) * 512 + c) * 512 + d
  }

  lemma IndicesOf(a: nat, b: nat, c: nat, d: nat)
    requires a < 512 && b < 512 && c < 512 && d < 512
    ensures var vp := PageAt(a, b, c, d);
            Index(vp, 4) == a && Index(vp, 3) == b && Index(vp, 2) == c && Index(vp, 1) == d && vp % 512 == d
  {
    var vp := PageAt(a, b, c, d);
    assert Up(vp, 0) == vp && Up(vp, 1) == vp / 512 == (a * 512 + b) * 512 + c;
    assert Up(vp, 2) == Up(vp, 1) / 512 == a * 512 + b && Up(vp, 3) == Up(vp, 2) / 512 == a;
  }

  lemma PageOfAddress(a: nat, b: nat, c: nat, d: nat, r: nat)
    requires a < 512 && b < 512 && c < 512 && d < 512 && r < 4096
    ensures PageOf(PageAt(a, b, c, d) * 4096 + r) == PageAt(a, b, c, d)
  {
    var vp := PageAt(a, b, c, d);
    assert vp < 0x10_0000_0000 && (vp * 4096 + r) / 4096 == vp;
  }

  /** Entries `a`, `b` and `c` lead from the root through three tables to the one whose entry `d` is in force. */
  lemma FourLevels(m: seq<Byte>, root: nat, a: nat, b: nat, c: nat, d: nat, f3: nat, f2: nat, f1: nat)
    requires a < 512 && b < 512 && c < 512 && d < 512 && f3 < MAX_PAGES && f2 < MAX_PAGES && f1 < MAX_PAGES
    requires Le(m, root * 4096 + a * 8, 8) == 0x200_0000 + f3 * 4096 + 7
    requires Le(m, f3 * 4096 + b * 8, 8) == 0x200_0000 + f2 * 4096 + 7
    requires Le(m, f2 * 4096 + c * 8, 8) == 0x200_0000 + f1 * 4096 + 7
    ensures Walk(m, root, 4, PageAt(a, b, c, d)) == Some(Le(m, f1 * 4096 + d * 8, 8))
  {
    hide Le, Index, PageAt, Present, Huge, Target;
    var vp := PageAt(a, b, c, d);
    IndicesOf(a, b, c, d);
    TableEntry(f1);
    TableEntry(f2);
    TableEntry(f3);
    assert Walk(m, f1, 1, vp) == Some(Le(m, f1 * 4096 + d * 8, 8));
    assert Walk(m, f2, 2, vp) == Walk(m, f1, 1, vp);
    assert Walk(m, f3, 3, vp) == Walk(m, f2, 2, vp);
  }

  lemma HugeEntry(q: nat, d: nat)
    requires d < 512
    ensures var e := q * 0x20_0000 + 0x87;
            Present(e) && Huge(e) && e - e % 0x20_0000 + d * 4096 + e % 128 == q * 0x20_0000 + d * 4096 + 7
    ensures Decode(Some(q * 0x20_0000 + d * 4096 + 7)) == Some(Mapping(q * 0x20_0000 + d * 4096, 7))
  {
  }

  /** Two tables lead to a 2 MB page. */
  lemma HugeLevels(m: seq<Byte>, root: nat, a: nat, b: nat, c: nat, d: nat, f3: nat, f2: nat, q: nat)
    requires a < 512 && b < 512 && c < 512 && d < 512 && f3 < MAX_PAGES && f2 < MAX_PAGES
    requires Le(m, root * 4096 + a * 8, 8) == 0x200_0000 + f3 * 4096 + 7
    requires Le(m, f3 * 4096 + b * 8, 8) == 0x200_0000 + f2 * 4096 + 7
    requires Le(m, f2 * 4096 + c * 8, 8) == q * 0x20_0000 + 0x87
    ensures Translate(m, root, PageAt(a, b, c, d)) == Some(Mapping(q * 0x20_0000 + d * 4096, 7))
  {
    hide Le, Index, PageAt, Present, Huge, Target;
    var vp := PageAt(a, b, c, d);
    IndicesOf(a, b, c, d);
    TableEntry(f2);
    TableEntry(f3);
    HugeEntry(q, d);
    assert Walk(m, f2, 2, vp) == Some(q * 0x20_0000 + d * 4096 + 7);
    assert Walk(m, f3, 3, vp) == Walk(m, f2, 2, vp);
  }

  /** How many tables `map_page` has to allocate before `vp` has a leaf entry of its own. */
  function MissingTables(m: seq<Byte>, f: nat, level: nat, vp: nat): (n: nat)
    requires level > 0
    ensures n < level
    decreases level
  {
    if level == 1 then 0
    else
      var e := Entry(m, f, Index(vp, level));
      if !Present(e) || (level == 2 && Huge(e)) || !(0 <= Target(e) < MAX_PAGES) then level - 1
      else MissingTables(m, Target(e), level - 1, vp)
  }

  // The tree invariant

  /** A table frame's place: its level, and the high part of the page numbers it serves. */
  datatype Node = Node(level: nat, prefix: nat)

  type Tables = map<int, Node>

  predicate EntryOk(m: seq<Byte>, tables: Tables, f: int, k: nat)
    requires f in tables && 0 <= f
  {
    var n := tables[f];
    var e := Entry(m, f, k);
    n.level > 1 ==>
      if !Present(e) then e == 0
      else if n.level == 2 && Huge(e) then e % 0x20_0000 == 0x87
      else e % 4096 == 7 && Target(e) in tables && tables[Target(e)] == Node(n.level - 1, n.prefix * 512 + k)
  }

  /** Every table frame has one place, and every present upper entry points at the table of the place below it. */
  ghost predicate Tree(m: seq<Byte>, tables: Tables, root: int) {
    && |m| == POOL_BYTES
    && root in tables && tables[root] == Node(LEVELS, 0)
    && (forall f :: f in tables ==> 0 <= f < MAX_PAGES && 1 <= tables[f].level <= 4)
    && (forall f, k: nat :: f in tables && k < 512 ==> EntryOk(m, tables, f, k))
  }

  predicate Serves(n: Node, vp: nat) {
    n.prefix == Up(vp, n.level)
  }

  /** Tables agree on an entry. */
  predicate SameEntry(m: seq<Byte>, m': seq<Byte>, f: nat, k: nat) {
    Entry(m', f, k) == Entry(m, f, k)
  }

  /** A walk depends only on the entries along its own path. */
  lemma {:induction false} WalkSame(m: seq<Byte>, m': seq<Byte>, tables: Tables, root: int, f: int, level: nat, vp: nat)
    requires Tree(m, tables, root)
    requires f in tables && level == tables[f].level && Serves(tables[f], vp)
    requires forall g :: g in tables && Serves(tables[g], vp) ==> SameEntry(m, m', g, Index(vp, tables[g].level))
    ensures Walk(m', f, level, vp) == Walk(m, f, level, vp)
    decreases level
  {
    assert SameEntry(m, m', f, Index(vp, level));
    assert EntryOk(m, tables, f, Index(vp, level));
    var e := Entry(m, f, Index(vp, level));
    if level > 1 && Present(e) && !(level == 2 && Huge(e)) {
      WalkSame(m, m', tables, root, Target(e), level - 1, vp);
    }
  }

  /** The frame of the level-`stop` table that the walk for `vp` passes through, if it gets there. */
  function TableAt(m: seq<Byte>, f: nat, level: nat, stop: nat, vp: nat): Option<nat>
    requires 1 <= stop <= level
    decreases level
  {
    if level == stop then Some(f)
    else
      var e := Entry(m, f, Index(vp, level));
      if Present(e) && !(level == 2 && Huge(e)) && 0 <= Target(e) < MAX_PAGES
      then TableAt(m, Target(e), level - 1, stop, vp)
      else None
  }

  /** A walk that passes through a table continues from that table. */
  lemma {:induction false} WalkVia(m: seq<Byte>, f: nat, level: nat, stop: nat, vp: nat)
    requires 1 <= stop <= level && TableAt(m, f, level, stop, vp).Some?
    ensures Walk(m, f, level, vp) == Walk(m, TableAt(m, f, level, stop, vp).value, stop, vp)
    ensures MissingTables(m, f, level, vp) == MissingTables(m, TableAt(m, f, level, stop, vp).value, stop, vp)
    decreases level
  {
    if level > stop {
      WalkVia(m, Target(Entry(m, f, Index(vp, level))), level - 1, stop, vp);
    }
  }

  /** The table a walk passes through sits at the walk's place in the tree. */
  lemma {:induction false} TableAtPlace(m: seq<Byte>, tables: Tables, root: int, f: int, level: nat, stop: nat, vp: nat)
    requires Tree(m, tables, root)
    requires f in tables && level == tables[f].level && Serves(tables[f], vp)
    requires 1 <= stop <= level && TableAt(m, f, level, stop, vp).Some?
    ensures var g := TableAt(m, f, level, stop, vp).value; g in tables && tables[g] == Node(stop, Up(vp, stop))
    decreases level
  {
    if level > stop {
      assert EntryOk(m, tables, f, Index(vp, level));
      TableAtPlace(m, tables, root, Target(Entry(m, f, Index(vp, level))), level - 1, stop, vp);
    }
  }

  /** One more present entry takes the walk one table further. */
  lemma {:induction false} TableAtStep(m: seq<Byte>, f: nat, level: nat, stop: nat, vp: nat)
    requires 2 <= stop <= level && TableAt(m, f, level, stop, vp).Some?
    ensures var e := Entry(m, TableAt(m, f, level, stop, vp).value, Index(vp, stop));
            TableAt(m, f, level, stop - 1, vp) ==
            if Present(e) && !(stop == 2 && Huge(e)) && 0 <= Target(e) < MAX_PAGES then Some(Target(e)) else None
    decreases level
  {
    if level > stop {
      TableAtStep(m, Target(Entry(m, f, Index(vp, level))), level - 1, stop, vp);
    }
  }

  /** Which table a walk reaches at a level depends only on the entries above that level. */
  lemma {:induction false} TableAtSame(m: seq<Byte>, m': seq<Byte>, tables: Tables, root: int,
                                       f: int, level: nat, stop: nat, vp: nat)
    requires Tree(m, tables, root)
    requires f in tables && level == tables[f].level && Serves(tables[f], vp) && 1 <= stop <= level
    requires forall g :: g in tables && Serves(tables[g], vp) && tables[g].level > stop ==>
                           SameEntry(m, m', g, Index(vp, tables[g].level))
    ensures TableAt(m', f, level, stop, vp) == TableAt(m, f, level, stop, vp)
    decreases level
  {
    if level > stop {
      var e := Entry(m, f, Index(vp, level));
      assert SameEntry(m, m', f, Index(vp, level));
      assert EntryOk(m, tables, f, Index(vp, level));
      if Present(e) && !(level == 2 && Huge(e)) {
        TableAtSame(m, m', tables, root, Target(e), level - 1, stop, vp);
      }
    }
  }

  lemma UpOfPage(vp: nat)
    requires vp < VIRTUAL_PAGES
    ensures Up(vp, LEVELS) == 0
  {
    assert LEVELS == 4;
    assert Up(vp, 1) == vp / 512;
    assert Up(vp, 2) == Up(vp, 1) / 512;
    assert Up(vp, 3) == Up(vp, 2) / 512;
  }

  /** Walks that reach tables at different places reach different frames. */
  lemma TablesDistinct(m: seq<Byte>, tables: Tables, root: int, vp: nat, stop: nat, vp': nat, stop': nat)
    requires Tree(m, tables, root) && vp < VIRTUAL_PAGES && vp' < VIRTUAL_PAGES
    requires 1 <= stop <= 4 && 1 <= stop' <= 4
    requires TableAt(m, root, LEVELS, stop, vp).Some?
    requires TableAt(m, root, LEVELS, stop, vp) == TableAt(m, root, LEVELS, stop', vp')
    ensures stop == stop' && Up(vp, stop) == Up(vp', stop')
  {
    UpOfPage(vp);
    UpOfPage(vp');
    TableAtPlace(m, tables, root, root, LEVELS, stop, vp);
    TableAtPlace(m, tables, root, root, LEVELS, stop', vp');
  }

  // The effect of one table write

  /** Every table entry but number `k0` of frame `f0` is kept. */
  ghost predicate KeptExcept(m: seq<Byte>, m': seq<Byte>, tables: Tables, f0: int, k0: nat) {
    && |m'| == |m|
    && forall f, k: nat :: f in tables && 0 <= f && k < 512 && (f != f0 || k != k0) ==> SameEntry(m, m', f, k)
  }

  /** A write to an entry off the path of `vp` leaves the walk alone. */
  lemma WriteOffPath(m: seq<Byte>, m': seq<Byte>, tables: Tables, root: int, f0: int, k0: nat, vp: nat)
    requires Tree(m, tables, root) && f0 in tables && KeptExcept(m, m', tables, f0, k0) && vp < VIRTUAL_PAGES
    requires Up(vp, tables[f0].level - 1) != tables[f0].prefix * 512 + k0
    ensures Walk(m', root, LEVELS, vp) == Walk(m, root, LEVELS, vp)
  {
    UpOfPage(vp);
    forall g | g in tables && Serves(tables[g], vp) ensures SameEntry(m, m', g, Index(vp, tables[g].level)) {
      if g == f0 {
        assert Up(vp, tables[g].level) == Up(vp, tables[g].level - 1) / 512;
      }
    }
    WalkSame(m, m', tables, root, root, LEVELS, vp);
  }

  /** What a fresh table `t` must hold to stand in for the entry `e` it replaces. */
  ghost predicate Replaces(m': seq<Byte>, t: nat, level: nat, e: nat) {
    if level == 2 && Huge(e)
    then Present(e) && forall k: nat :: k < 512 ==> Entry(m', t, k) == e - e % 0x20_0000 + k * 4096 + 7
    else e == 0 && forall k: nat :: k < 512 ==> Entry(m', t, k) == 0
  }

  /** Frame `t` has been hung below entry `k0` of table `f0`. */
  ghost predicate Linked(m: seq<Byte>, m': seq<Byte>, tables: Tables, f0: int, k0: nat, t: int) {
    && f0 in tables && 0 <= f0 && tables[f0].level > 1 && k0 < 512
    && t !in tables && 0 <= t < MAX_PAGES
    && KeptExcept(m, m', tables, f0, k0)
    && Entry(m', f0, k0) == FrameAddr(t) + 7
    && Replaces(m', t, tables[f0].level, Entry(m, f0, k0))
  }

  function Child(n: Node, k: nat): Node
    requires n.level > 0
  {
    Node(n.level - 1, n.prefix * 512 + k)
  }

  lemma LinkKeepsTree(m: seq<Byte>, m': seq<Byte>, tables: Tables, root: int, f0: int, k0: nat, t: int)
    requires Tree(m, tables, root) && Linked(m, m', tables, f0, k0, t)
    ensures Tree(m', tables[t := Child(tables[f0], k0)], root)
  {
    var tables' := tables[t := Child(tables[f0], k0)];
    forall f, k: nat | f in tables' && k < 512 ensures EntryOk(m', tables', f, k) {
      if f == t {
        assert tables'[t].level > 1 ==> Entry(m', t, k) == 0;
      } else if f == f0 && k == k0 {
        TableEntry(t);
      } else {
        assert EntryOk(m, tables, f, k) && SameEntry(m, m', f, k);
      }
    }
  }

  /** At the replaced entry itself, the walk goes through the new table and reads what the old entry said. */
  lemma LinkedEntryWalk(m: seq<Byte>, m': seq<Byte>, tables: Tables, root: int, f0: int, k0: nat, t: int, vp: nat)
    requires Tree(m, tables, root) && Linked(m, m', tables, f0, k0, t)
    requires Serves(tables[f0], vp) && k0 == Index(vp, tables[f0].level)
    ensures var level := tables[f0].level; Decode(Walk(m', f0, level, vp)) == Decode(Walk(m, f0, level, vp))
  {
    var level := tables[f0].level;
    var e, e' := Entry(m, f0, k0), Entry(m', t, Index(vp, level - 1));
    TableEntry(t);
    assert EntryOk(m, tables, f0, k0);
    assert Walk(m', f0, level, vp) == Walk(m', t, level - 1, vp);
    if level == 2 {
      assert Walk(m', t, 1, vp) == Some(e');
      assert Index(vp, 1) == vp % 512;
      if Huge(e) { SplitEntry(e); }
    } else {
      assert Walk(m', t, level - 1, vp) == None;
    }
  }

  lemma TableEntry(t: nat)
    ensures var e := FrameAddr(t) + 7; Present(e) && !Huge(e) && e % 4096 == 7 && Target(e) == t
  {
    var e := FrameAddr(t) + 7;
    assert e == 4096 * (8192 + t) + 7;
    assert e / 128 == 32 * (8192 + t);
  }

  lemma SplitEntry(e: nat)
    requires e % 0x20_0000 == 0x87
    ensures e % 128 == 7
  {
  }

  /** Hanging a table that says what the replaced entry said changes no translation. */
  lemma {:induction false} LinkKeepsWalks(m: seq<Byte>, m': seq<Byte>, tables: Tables, root: int, f0: int, k0: nat,
                                          t: int,
                                          f: int, level: nat, vp: nat)
    requires Tree(m, tables, root) && Linked(m, m', tables, f0, k0, t)
    requires f in tables && level == tables[f].level && Serves(tables[f], vp)
    ensures Decode(Walk(m', f, level, vp)) == Decode(Walk(m, f, level, vp))
    decreases level
  {
    hide Entry, Decode, Present, Huge;
    var k := Index(vp, level);
    var e := Entry(m, f, k);
    assert EntryOk(m, tables, f, k);
    if f == f0 && k == k0 {
      LinkedEntryWalk(m, m', tables, root, f0, k0, t, vp);
    } else {
      assert Entry(m', f, k) == e by { assert SameEntry(m, m', f, k); }
      if level > 1 && Present(e) && !(level == 2 && Huge(e)) {
        assert Walk(m, f, level, vp) == Walk(m, Target(e), level - 1, vp);
        assert Walk(m', f, level, vp) == Walk(m', Target(e), level - 1, vp);
        LinkKeepsWalks(m, m', tables, root, f0, k0, t, Target(e), level - 1, vp);
      } else {
        assert Walk(m', f, level, vp) == Walk(m, f, level, vp);
      }
    }
  }

  lemma LinkKeepsTranslations(m: seq<Byte>, m': seq<Byte>, tables: Tables, root: int, f0: int, k0: nat, t: int)
    requires Tree(m, tables, root) && Linked(m, m', tables, f0, k0, t)
    ensures forall vp: nat :: vp < VIRTUAL_PAGES ==> Translate(m', root, vp) == Translate(m, root, vp)
  {
    forall vp: nat | vp < VIRTUAL_PAGES ensures Translate(m', root, vp) == Translate(m, root, vp) {
      UpOfPage(vp);
      LinkKeepsWalks(m, m', tables, root, f0, k0, t, root, LEVELS, vp);
    }
  }
}
