/**
 The virtual memory areas of kernel/mm/vmm.c: a table of 32 intervals with
 protection and flags, coalesced on creation, trimmed and split by removal and
 protection changes. The methods work in place on the table; each is tied to a
 function on its contents, and the lemmas say what those functions do to the
 address-to-attributes map that `vma_find` reads.
 */
module Vmm {
  import opened Options

  const MAX_PROCESS_VMAS: nat := 32

  datatype VmArea = VmArea(start: nat, end: nat, prot: nat, flags: nat, used: bool)

  datatype Attr = Attr(prot: nat, flags: nat)

  predicate Covers(v: VmArea, a: nat) {
    v.used && v.start <= a < v.end
  }

  predicate Apart(v: VmArea, w: VmArea) {
    v.used && w.used ==> v.end <= w.start || w.end <= v.start
  }

  /** Used areas are non-empty and pairwise disjoint. */
  ghost predicate Sane(vs: seq<VmArea>) {
    && (forall i :: 0 <= i < |vs| && vs[i].used ==> vs[i].start < vs[i].end)
    && (forall i, j :: 0 <= i < j < |vs| ==> Apart(vs[i], vs[j]))
  }

  /** The first slot from `i` on that covers `a`. */
  function Find(vs: seq<VmArea>, a: nat, i: nat): (k: nat)
    requires i <= |vs|
    ensures i <= k <= |vs|
    ensures forall j :: i <= j < k ==> !Covers(vs[j], a)
    ensures k < |vs| ==> Covers(vs[k], a)
    decreases |vs| - i
  {
    if i == |vs| || Covers(vs[i], a) then i else Find(vs, a, i + 1)
  }

  /** What `vma_find` reads at an address. */
  function Lookup(vs: seq<VmArea>, a: nat): Option<Attr> {
    var k := Find(vs, a, 0);
    if k < |vs| then Some(Attr(vs[k].prot, vs[k].flags)) else None
  }

  lemma LookupAt(vs: seq<VmArea>, j: nat, a: nat)
    requires Sane(vs) && j < |vs| && Covers(vs[j], a)
    ensures Lookup(vs, a) == Some(Attr(vs[j].prot, vs[j].flags))
  {
    var k := Find(vs, a, 0);
    assert k >= j || Apart(vs[k], vs[j]);
  }

  lemma LookupNone(vs: seq<VmArea>, a: nat)
    requires forall j :: 0 <= j < |vs| ==> !Covers(vs[j], a)
    ensures Lookup(vs, a) == None
  {
  }

  // Free slots

  function FreeSlots(vs: seq<VmArea>): nat {
    if vs == [] then 0 else FreeSlots(vs[..|vs| - 1]) + if vs[|vs| - 1].used then 0 else 1
  }

  lemma {:induction false} FreeSlotsUpdate(vs: seq<VmArea>, k: nat, v: VmArea)
    requires k < |vs|
    ensures FreeSlots(vs[k := v]) + (if vs[k].used then 0 else 1) == FreeSlots(vs) + if v.used then 0 else 1
  {
    var n := |vs| - 1;
    if k < n {
      assert vs[k := v][..n] == vs[..n][k := v];
      FreeSlotsUpdate(vs[..n], k, v);
    } else {
      assert vs[k := v][..n] == vs[..n];
    }
  }

  lemma {:induction false} FreeSlotExists(vs: seq<VmArea>)
    ensures FreeSlots(vs) > 0 <==> exists k :: 0 <= k < |vs| && !vs[k].used
  {
    if vs != [] {
      var n := |vs| - 1;
      FreeSlotExists(vs[..n]);
      if k :| 0 <= k < |vs| && !vs[k].used {
        assert k < n ==> !vs[..n][k].used;
      }
    }
  }

  // vma_create

  /** The area can take in the new range: same attributes, and the range lies inside it or next to it. */
  predicate Absorbs(v: VmArea, start: nat, end: nat, prot: nat, flags: nat) {
    && v.used && v.prot == prot && v.flags == flags
    && ((v.start <= start && end <= v.end) || v.end == start || v.start == end)
  }

  function Absorbed(v: VmArea, start: nat, end: nat): VmArea {
    if v.start <= start && end <= v.end then v
    else if v.end == start then v.(end := end)
    else v.(start := start)
  }

  function FirstAbsorbing(vs: seq<VmArea>, start: nat, end: nat, prot: nat, flags: nat, i: nat): (k: nat)
    requires i <= |vs|
    ensures i <= k <= |vs|
    ensures forall j :: i <= j < k ==> !Absorbs(vs[j], start, end, prot, flags)
    ensures k < |vs| ==> Absorbs(vs[k], start, end, prot, flags)
    decreases |vs| - i
  {
    if i == |vs| || Absorbs(vs[i], start, end, prot, flags) then i
    else FirstAbsorbing(vs, start, end, prot, flags, i + 1)
  }

  function FirstFree(vs: seq<VmArea>, i: nat): (k: nat)
    requires i <= |vs|
    ensures i <= k <= |vs|
    ensures forall j :: i <= j < k ==> vs[j].used
    ensures k < |vs| ==> !vs[k].used
    decreases |vs| - i
  {
    if i == |vs| || !vs[i].used then i else FirstFree(vs, i + 1)
  }

  /** The slot `vma_create` returns; the table's length stands for NULL. */
  function CreateSlot(vs: seq<VmArea>, start: nat, end: nat, prot: nat, flags: nat): (k: nat)
    ensures k <= |vs|
  {
    var k := FirstAbsorbing(vs, start, end, prot, flags, 0);
    if k < |vs| then k else FirstFree(vs, 0)
  }

  /** The table after `vma_create` on a non-empty range. */
  function Created(vs: seq<VmArea>, start: nat, end: nat, prot: nat, flags: nat): (r: seq<VmArea>)
    ensures |r| == |vs|
  {
    var k := CreateSlot(vs, start, end, prot, flags);
    if k == |vs| then vs
    else if vs[k].used then vs[k := Absorbed(vs[k], start, end)]
    else vs[k := VmArea(start, end, prot, flags, true)]
  }

  /** No used area touches the range. */
  ghost predicate Clear(vs: seq<VmArea>, start: nat, end: nat) {
    forall j :: 0 <= j < |vs| && vs[j].used ==> vs[j].end <= start || end <= vs[j].start
  }

  ghost predicate Added(vs: seq<VmArea>, r: seq<VmArea>, start: nat, end: nat, prot: nat, flags: nat) {
    forall a: nat :: Lookup(r, a) == if start <= a < end then Some(Attr(prot, flags)) else Lookup(vs, a)
  }

  /** There is no slot exactly when all are used and no area of these attributes holds the range or ends at it. */
  lemma CreateRefused(vs: seq<VmArea>, start: nat, end: nat, prot: nat, flags: nat)
    ensures CreateSlot(vs, start, end, prot, flags) == |vs| <==>
            forall j :: 0 <= j < |vs| ==>
                          && vs[j].used
                          && (vs[j].prot == prot && vs[j].flags == flags ==>
                                vs[j].end != start && vs[j].start != end && (start < vs[j].start || vs[j].end < end))
    ensures CreateSlot(vs, start, end, prot, flags) == |vs| ==> Created(vs, start, end, prot, flags) == vs
  {
    var k := FirstAbsorbing(vs, start, end, prot, flags, 0);
    if k < |vs| { assert Absorbs(vs[k], start, end, prot, flags); }
  }

  /** A range that lies in an area of these attributes changes nothing, unless a slot before it touches the range. */
  lemma CreateInside(vs: seq<VmArea>, k: nat, start: nat, end: nat, prot: nat, flags: nat)
    requires k < |vs| && vs[k] == VmArea(vs[k].start, vs[k].end, prot, flags, true)
    requires vs[k].start <= start < end <= vs[k].end
    requires forall j :: 0 <= j < k && vs[j].used && vs[j].prot == prot && vs[j].flags == flags ==>
                           vs[j].end != start && vs[j].start != end
    ensures Created(vs, start, end, prot, flags) == vs
  {
    assert Absorbs(vs[k], start, end, prot, flags);
    var j := FirstAbsorbing(vs, start, end, prot, flags, 0);
    assert vs[j].start <= start && end <= vs[j].end;
  }

  /** Creating a clear range adds exactly that range, if there is a slot for it. */
  lemma CreateAdds(vs: seq<VmArea>, start: nat, end: nat, prot: nat, flags: nat)
    requires Sane(vs) && start < end && Clear(vs, start, end)
    requires CreateSlot(vs, start, end, prot, flags) < |vs|
    ensures var r := Created(vs, start, end, prot, flags);
            Sane(r) && Added(vs, r, start, end, prot, flags)
  {
    var k := CreateSlot(vs, start, end, prot, flags);
    var r := Created(vs, start, end, prot, flags);
    assert Sane(r) by {
      forall i, j | 0 <= i < j < |r| ensures Apart(r[i], r[j]) { assert Apart(vs[i], vs[j]); }
    }
    forall a: nat
      ensures Lookup(r, a) == if start <= a < end then Some(Attr(prot, flags)) else Lookup(vs, a)
    {
      if Covers(r[k], a) && start <= a < end {
        LookupAt(r, k, a);
      } else {
        var j := Find(vs, a, 0);
        if j < |vs| { LookupAt(r, j, a); } else { LookupNone(r, a); }
      }
    }
  }

  /** The slot `vma_create` settles on holds the range already, or there is no slot: the table stays as it is. */
  predicate HoldsAlready(vs: seq<VmArea>, start: nat, end: nat, prot: nat, flags: nat) {
    var k := CreateSlot(vs, start, end, prot, flags);
    k == |vs| || (vs[k].used && vs[k].start <= start && end <= vs[k].end)
  }

  /** For any range at all: areas stay disjoint exactly when nothing changes or no area touches the range. */
  lemma CreateDisjoint(vs: seq<VmArea>, start: nat, end: nat, prot: nat, flags: nat)
    requires Sane(vs) && start < end
    ensures Sane(Created(vs, start, end, prot, flags)) <==>
            HoldsAlready(vs, start, end, prot, flags) || Clear(vs, start, end)
  {
    var k := CreateSlot(vs, start, end, prot, flags);
    var r := Created(vs, start, end, prot, flags);
    if HoldsAlready(vs, start, end, prot, flags) {
      assert r == vs;
    } else if Clear(vs, start, end) {
      CreateAdds(vs, start, end, prot, flags);
    } else {
      var j :| 0 <= j < |vs| && vs[j].used && !(vs[j].end <= start || end <= vs[j].start);
      assert j != k && r[j] == vs[j] && r[k].used;
      assert !Apart(r[j], r[k]) && !Apart(r[k], r[j]);
    }
  }

  /** Two areas that overlap after one call: the range crosses the end of an area with other attributes. */
  lemma CreateOverlaps(rest: seq<VmArea>)
    requires |rest| > 0 && forall i :: 0 <= i < |rest| ==> !rest[i].used
    ensures var vs := [VmArea(0, 0x2000, 1, 2, true)] + rest; Sane(vs) && !Sane(Created(vs, 0x1000, 0x3000, 3, 2))
  {
    var vs := [VmArea(0, 0x2000, 1, 2, true)] + rest;
    assert Sane(vs) && vs[0].used && !Clear(vs, 0x1000, 0x3000);
    assert !vs[1].used && CreateSlot(vs, 0x1000, 0x3000, 3, 2) < |vs|;
    CreateDisjoint(vs, 0x1000, 0x3000, 3, 2);
  }

  /** `w` is `v` cut down, or gone. */
  predicate Within(w: VmArea, v: VmArea) {
    w.used ==> v.used && v.start <= w.start < w.end <= v.end && w.prot == v.prot && w.flags == v.flags
  }

  /** Cutting an area down takes away exactly the addresses cut off. */
  lemma ShrinkRemoves(vs: seq<VmArea>, i: nat, w: VmArea)
    requires Sane(vs) && i < |vs| && vs[i].used && Within(w, vs[i])
    ensures var r := vs[i := w];
            Sane(r) && forall a: nat ::
              Lookup(r, a) == if Covers(vs[i], a) && !Covers(w, a) then None else Lookup(vs, a)
  {
    var r := vs[i := w];
    forall j, k | 0 <= j < k < |r| ensures Apart(r[j], r[k]) { assert Apart(vs[j], vs[k]); }
    forall a: nat
      ensures Lookup(r, a) == if Covers(vs[i], a) && !Covers(w, a) then None else Lookup(vs, a)
    {
      var j := Find(vs, a, 0);
      if Covers(vs[i], a) { LookupAt(vs, i, a); }
      if j < |vs| && Covers(r[j], a) {
        LookupAt(r, j, a);
      } else {
        forall k | 0 <= k < |r| ensures !Covers(r[k], a) {
          assert j < |vs| && k < j ==> Apart(vs[k], vs[j]);
          assert j < |vs| && j < k ==> Apart(vs[j], vs[k]);
        }
        LookupNone(r, a);
      }
    }
  }

  /** Changing an area's protection changes it on that area's addresses. */
  lemma RecolourChanges(vs: seq<VmArea>, i: nat, prot: nat)
    requires Sane(vs) && i < |vs| && vs[i].used
    ensures var r := vs[i := vs[i].(prot := prot)];
            Sane(r) && forall a: nat ::
              Lookup(r, a) == if Covers(vs[i], a) then Some(Attr(prot, vs[i].flags)) else Lookup(vs, a)
  {
    var r := vs[i := vs[i].(prot := prot)];
    forall j, k | 0 <= j < k < |r| ensures Apart(r[j], r[k]) { assert Apart(vs[j], vs[k]); }
    forall a: nat
      ensures Lookup(r, a) == if Covers(vs[i], a) then Some(Attr(prot, vs[i].flags)) else Lookup(vs, a)
    {
      var j := Find(vs, a, 0);
      if Covers(r[i], a) { LookupAt(r, i, a); } else if j < |vs| { LookupAt(r, j, a); } else { LookupNone(r, a); }
    }
  }

  // vma_remove

  predicate Overlaps(v: VmArea, start: nat, end: nat) {
    v.used && start < v.end && v.start < end
  }

  /** The area sticks out of the range on both sides. */
  predicate Splits(v: VmArea, start: nat, end: nat) {
    v.used && v.start < start && end < v.end
  }

  /** One round of the `vma_remove` loop. */
  function RemoveSlot(vs: seq<VmArea>, i: nat, start: nat, end: nat): (r: seq<VmArea>)
    requires i < |vs|
    ensures |r| == |vs|
  {
    var v := vs[i];
    if !Overlaps(v, start, end) then vs
    else if start <= v.start && end >= v.end then vs[i := v.(used := false)]
    else if start <= v.start then vs[i := v.(start := end)]
    else if end >= v.end then vs[i := v.(end := start)]
    else Created(vs[i := v.(end := start)], end, v.end, v.prot, v.flags)
  }

  function RemoveFrom(vs: seq<VmArea>, i: nat, start: nat, end: nat): (r: seq<VmArea>)
    requires i <= |vs|
    ensures |r| == |vs|
    decreases |vs| - i
  {
    if i == |vs| then vs else RemoveFrom(RemoveSlot(vs, i, start, end), i + 1, start, end)
  }

  /** Slot `j` only ever grows. */
  predicate Grows(v: VmArea, w: VmArea) {
    v.used ==> w.used && w.start <= v.start && v.end <= w.end && w.prot == v.prot && w.flags == v.flags
  }

  lemma CreateGrows(vs: seq<VmArea>, start: nat, end: nat, prot: nat, flags: nat)
    requires start < end && forall j :: 0 <= j < |vs| && vs[j].used ==> vs[j].start < vs[j].end
    ensures forall j :: 0 <= j < |vs| ==> Grows(vs[j], Created(vs, start, end, prot, flags)[j])
  {
  }

  /** There is a slot for what is left of a split area beyond the range. */
  ghost predicate HasRoom(vs: seq<VmArea>, v: VmArea) {
    || (exists k :: 0 <= k < |vs| && !vs[k].used)
    || (exists k ::
          0 <= k < |vs| && vs[k].used && vs[k].start == v.end && vs[k].prot == v.prot && vs[k].flags == v.flags)
  }

  /** One round takes the range away from slot `i`'s area and changes nothing else. */
  lemma RemoveSlotEffect(vs: seq<VmArea>, i: nat, start: nat, end: nat)
    requires Sane(vs) && i < |vs| && start < end
    requires Splits(vs[i], start, end) ==> HasRoom(vs, vs[i])
    ensures var r := RemoveSlot(vs, i, start, end);
            && Sane(r)
            && (forall a: nat :: Lookup(r, a) == if Covers(vs[i], a) && start <= a < end then None else Lookup(vs, a))
            && (forall j :: 0 <= j < |vs| && j != i ==> Grows(vs[j], r[j]))
  {
    var v := vs[i];
    if !Overlaps(v, start, end) {
    } else if start <= v.start && end >= v.end {
      ShrinkRemoves(vs, i, v.(used := false));
    } else if start <= v.start {
      ShrinkRemoves(vs, i, v.(start := end));
    } else if end >= v.end {
      ShrinkRemoves(vs, i, v.(end := start));
    } else {
      var cut := vs[i := v.(end := start)];
      ShrinkRemoves(vs, i, v.(end := start));
      SplitSlot(vs, i, start, end);
      CreateAdds(cut, end, v.end, v.prot, v.flags);
      CreateGrows(cut, end, v.end, v.prot, v.flags);
      forall a: nat | end <= a < v.end ensures Lookup(vs, a) == Some(Attr(v.prot, v.flags)) { LookupAt(vs, i, a); }
    }
  }

  /** Around a split area the rest of the table is clear, and the remainder finds a slot exactly when there is room. */
  lemma SplitSlot(vs: seq<VmArea>, i: nat, start: nat, end: nat)
    requires Sane(vs) && i < |vs| && start < end && Splits(vs[i], start, end)
    ensures var v, cut := vs[i], vs[i := vs[i].(end := start)];
            && Clear(cut, end, v.end)
            && (CreateSlot(cut, end, v.end, v.prot, v.flags) < |vs| <==> HasRoom(vs, v))
  {
    var v, cut := vs[i], vs[i := vs[i].(end := start)];
    forall j | 0 <= j < |vs| && j != i && vs[j].used ensures vs[j].end <= v.start || v.end <= vs[j].start {
      assert if j < i then Apart(vs[j], vs[i]) else Apart(vs[i], vs[j]);
    }
    if HasRoom(vs, v) {
      var k :| 0 <= k < |vs| && (!vs[k].used ||
                 (vs[k].used && vs[k].start == v.end && vs[k].prot == v.prot && vs[k].flags == v.flags));
      assert !cut[k].used || Absorbs(cut[k], end, v.end, v.prot, v.flags);
    } else {
      forall j | 0 <= j < |vs| ensures cut[j].used && !Absorbs(cut[j], end, v.end, v.prot, v.flags) {
        assert vs[j].used;
      }
    }
  }

  ghost predicate CoveredFrom(vs: seq<VmArea>, i: nat, a: nat) {
    exists j :: i <= j < |vs| && Covers(vs[j], a)
  }

  ghost predicate RoomFrom(vs: seq<VmArea>, i: nat, start: nat, end: nat) {
    forall j :: i <= j < |vs| && Splits(vs[j], start, end) ==> HasRoom(vs, vs[j])
  }

  /** Once an area touching the range has been cut, no area left in the table can contain the range. */
  lemma NoSplitAfterCut(vs: seq<VmArea>, i: nat, start: nat, end: nat)
    requires Sane(vs) && i < |vs| && start < end && RoomFrom(vs, i, start, end)
    ensures RoomFrom(RemoveSlot(vs, i, start, end), i + 1, start, end)
  {
    var r := RemoveSlot(vs, i, start, end);
    RemoveSlotEffect(vs, i, start, end);
    if Overlaps(vs[i], start, end) {
      var a := if start < vs[i].start then vs[i].start else start;
      forall j | i + 1 <= j < |r| ensures !Splits(r[j], start, end) {
        if Splits(r[j], start, end) {
          LookupAt(r, j, a);
          assert false;
        }
      }
    }
  }

  /** The loop from slot `i` on clears the range in the areas it still has to visit. */
  lemma {:induction false} RemoveFromEffect(vs: seq<VmArea>, i: nat, start: nat, end: nat)
    requires Sane(vs) && i <= |vs| && start < end && RoomFrom(vs, i, start, end)
    ensures var r := RemoveFrom(vs, i, start, end);
            Sane(r) && forall a: nat ::
              Lookup(r, a) == if start <= a < end && CoveredFrom(vs, i, a) then None else Lookup(vs, a)
    decreases |vs| - i
  {
    if i < |vs| {
      var vs' := RemoveSlot(vs, i, start, end);
      RemoveSlotEffect(vs, i, start, end);
      NoSplitAfterCut(vs, i, start, end);
      RemoveFromEffect(vs', i + 1, start, end);
      var r := RemoveFrom(vs, i, start, end);
      forall a: nat
        ensures Lookup(r, a) == if start <= a < end && CoveredFrom(vs, i, a) then None else Lookup(vs, a)
      {
        if start <= a < end && Lookup(vs', a).Some? {
          StillCovered(vs, vs', i, start, end, a);
        }
      }
    }
  }

  /** An address of the range that survives round `i` is covered by the same kind of slot as before. */
  lemma StillCovered(vs: seq<VmArea>, vs': seq<VmArea>, i: nat, start: nat, end: nat, a: nat)
    requires Sane(vs) && Sane(vs') && i < |vs| == |vs'| && start <= a < end
    requires forall j :: 0 <= j < |vs| && j != i ==> Grows(vs[j], vs'[j])
    requires Lookup(vs', a) == if Covers(vs[i], a) then None else Lookup(vs, a)
    requires Lookup(vs', a).Some?
    ensures CoveredFrom(vs', i + 1, a) <==> CoveredFrom(vs, i, a)
  {
    var k := Find(vs, a, 0);
    assert k < |vs| && Covers(vs[k], a) && k != i;
    assert Covers(vs'[k], a);
    if k < i {
      forall j | i <= j < |vs| ensures !Covers(vs[j], a) && (j != i ==> !Covers(vs'[j], a)) {
        assert Apart(vs[k], vs[j]);
        assert Apart(vs'[k], vs'[j]);
      }
    }
  }

  /** Set subtraction, and disjoint areas again. */
  ghost predicate Subtracted(vs: seq<VmArea>, r: seq<VmArea>, start: nat, end: nat) {
    Sane(r) && forall a: nat :: Lookup(r, a) == if start <= a < end then None else Lookup(vs, a)
  }

  /**
   `vma_remove` is set subtraction exactly when an area sticking out of the
   range on both sides, if there is one, finds a slot for its remainder.
   */
  lemma RemoveIsSubtraction(vs: seq<VmArea>, start: nat, end: nat)
    requires Sane(vs) && start < end
    ensures Subtracted(vs, RemoveFrom(vs, 0, start, end), start, end) <==> RoomFrom(vs, 0, start, end)
  {
    if RoomFrom(vs, 0, start, end) {
      RemoveFromEffect(vs, 0, start, end);
      forall a: nat | start <= a < end ensures Lookup(RemoveFrom(vs, 0, start, end), a) == None {
        assert Lookup(vs, a).Some? ==> Covers(vs[Find(vs, a, 0)], a);
      }
    } else {
      var j :| 0 <= j < |vs| && Splits(vs[j], start, end) && !HasRoom(vs, vs[j]);
      RemainderLost(vs, j, start, end);
    }
  }

  lemma {:induction false} RemoveSkips(vs: seq<VmArea>, i: nat, j: nat, start: nat, end: nat)
    requires i <= j <= |vs| && forall k :: i <= k < j ==> !Overlaps(vs[k], start, end)
    ensures RemoveFrom(vs, i, start, end) == RemoveFrom(vs, j, start, end)
    decreases j - i
  {
    if i < j { RemoveSkips(vs, i + 1, j, start, end); }
  }

  /** With no slot for it, the part of a split area beyond the range disappears. */
  lemma RemainderLost(vs: seq<VmArea>, j: nat, start: nat, end: nat)
    requires Sane(vs) && start < end && j < |vs| && Splits(vs[j], start, end) && !HasRoom(vs, vs[j])
    ensures Lookup(vs, end).Some? && Lookup(RemoveFrom(vs, 0, start, end), end) == None
  {
    var v, cut := vs[j], vs[j := vs[j].(end := start)];
    forall k | 0 <= k < |vs| && k != j ensures !Overlaps(vs[k], start, end) {
      assert if k < j then Apart(vs[k], vs[j]) else Apart(vs[j], vs[k]);
    }
    SplitSlot(vs, j, start, end);
    ShrinkRemoves(vs, j, v.(end := start));
    assert RemoveSlot(vs, j, start, end) == cut;
    RemoveSkips(vs, 0, j, start, end);
    RemoveSkips(cut, j + 1, |vs|, start, end);
    LookupAt(vs, j, end);
  }

  // vma_protect

  /** One round of the `vma_protect` loop. The tail is built from `end`, not from the area's old end. */
  function ProtectSlot(vs: seq<VmArea>, i: nat, start: nat, end: nat, prot: nat): (r: seq<VmArea>)
    requires i < |vs|
    ensures |r| == |vs|
  {
    var v := vs[i];
    if !Overlaps(v, start, end) then vs
    else if start <= v.start && end >= v.end then vs[i := v.(prot := prot)]
    else if start <= v.start then Created(vs[i := v.(end := end, prot := prot)], end, v.end, v.prot, v.flags)
    else if end >= v.end then Created(vs[i := v.(end := start)], start, end, prot, v.flags)
    else Created(Created(vs[i := v.(end := start)], start, end, prot, v.flags), end, v.end, v.prot, v.flags)
  }

  function ProtectFrom(vs: seq<VmArea>, i: nat, start: nat, end: nat, prot: nat): (r: seq<VmArea>)
    requires i <= |vs|
    ensures |r| == |vs|
    decreases |vs| - i
  {
    if i == |vs| then vs else ProtectFrom(ProtectSlot(vs, i, start, end, prot), i + 1, start, end, prot)
  }

  /** The area begins before the range and ends inside it. */
  predicate Straddles(v: VmArea, start: nat, end: nat) {
    v.used && v.start < start < v.end < end
  }

  /** A boundary of the range falls inside an area of a different protection, so that a slot may be needed. */
  predicate CutBy(v: VmArea, boundary: nat, prot: nat) {
    v.used && v.start < boundary < v.end && v.prot != prot
  }

  /** Slots that splitting this area at the boundaries of the range can take. */
  function Need(v: VmArea, start: nat, end: nat, prot: nat): nat {
    (if CutBy(v, start, prot) then 1 else 0) + (if CutBy(v, end, prot) then 1 else 0)
  }

  /** An area begins at `at` with these attributes, so that it can take in what ends there. */
  ghost predicate Neighbour(vs: seq<VmArea>, at: nat, prot: nat, flags: nat) {
    exists k :: 0 <= k < |vs| && vs[k].used && vs[k].start == at && vs[k].prot == prot && vs[k].flags == flags
  }

  /** There is a slot for each piece that cutting this area at the boundaries of the range makes. */
  ghost predicate RoomFor(vs: seq<VmArea>, v: VmArea, start: nat, end: nat, prot: nat) {
    var free := FreeSlots(vs);
    && (CutBy(v, start, prot) && v.end == end ==> free >= 1 || Neighbour(vs, end, prot, v.flags))
    && (CutBy(v, start, prot) && end < v.end ==> free >= 1 && (free >= 2 || Neighbour(vs, v.end, v.prot, v.flags)))
    && (CutBy(v, end, prot) && start <= v.start ==> free >= 1 || Neighbour(vs, v.end, v.prot, v.flags))
  }

  lemma NeighbourKept(vs: seq<VmArea>, i: nat, w: VmArea, at: nat, prot: nat, flags: nat)
    requires i < |vs| && vs[i].start != at && Neighbour(vs, at, prot, flags)
    ensures Neighbour(vs[i := w], at, prot, flags)
  {
    var k :| 0 <= k < |vs| && vs[k].used && vs[k].start == at && vs[k].prot == prot && vs[k].flags == flags;
    assert vs[i := w][k] == vs[k];
  }

  lemma CreateUsesASlot(vs: seq<VmArea>, start: nat, end: nat, prot: nat, flags: nat)
    ensures FreeSlots(Created(vs, start, end, prot, flags)) + 1 >= FreeSlots(vs)
    ensures (exists k :: 0 <= k < |vs| && Absorbs(vs[k], start, end, prot, flags)) ==>
              CreateSlot(vs, start, end, prot, flags) < |vs| &&
              FreeSlots(Created(vs, start, end, prot, flags)) == FreeSlots(vs)
    ensures FreeSlots(vs) > 0 || Neighbour(vs, end, prot, flags) ==> CreateSlot(vs, start, end, prot, flags) < |vs|
  {
    FreeSlotExists(vs);
    if k :| 0 <= k < |vs| && vs[k].used && vs[k].start == end && vs[k].prot == prot && vs[k].flags == flags {
      assert Absorbs(vs[k], start, end, prot, flags);
    }
    var k := CreateSlot(vs, start, end, prot, flags);
    if k < |vs| {
      FreeSlotsUpdate(vs, k, Created(vs, start, end, prot, flags)[k]);
      assert Created(vs, start, end, prot, flags) == vs[k := Created(vs, start, end, prot, flags)[k]];
    }
  }

  ghost predicate Repainted(vs: seq<VmArea>, v: VmArea, r: seq<VmArea>, start: nat, end: nat, prot: nat) {
    forall a: nat :: Lookup(r, a) ==
                     if Covers(v, a) && start <= a < end then Some(Attr(prot, v.flags)) else Lookup(vs, a)
  }

  /** An area repainted inside the range but lost behind it, and then put back behind it, is just repainted. */
  lemma PutBack(vs: seq<VmArea>, i: nat, mid: seq<VmArea>, r: seq<VmArea>, start: nat, end: nat, prot: nat)
    requires Sane(vs) && i < |vs| && vs[i].used && end < vs[i].end &&
             Added(mid, r, end, vs[i].end, vs[i].prot, vs[i].flags)
    requires forall a: nat :: Lookup(mid, a) ==
                              if Covers(vs[i], a) && start <= a < end then Some(Attr(prot, vs[i].flags))
                              else if end <= a < vs[i].end then None else Lookup(vs, a)
    requires vs[i].start < end
    ensures Repainted(vs, vs[i], r, start, end, prot)
  {
    forall a: nat
      ensures Lookup(r, a) ==
              if Covers(vs[i], a) && start <= a < end then Some(Attr(prot, vs[i].flags)) else Lookup(vs, a)
    {
      if Covers(vs[i], a) { LookupAt(vs, i, a); }
      assert Lookup(r, a) == if end <= a < vs[i].end then Some(Attr(vs[i].prot, vs[i].flags)) else Lookup(mid, a);
    }
  }

  /** What a correct round on slot `i` does: new protection on the part of its area inside the range. */
  ghost predicate SlotProtected(vs: seq<VmArea>, i: nat, r: seq<VmArea>, start: nat, end: nat, prot: nat)
    requires i < |vs| == |r|
  {
    && Sane(r)
    && Repainted(vs, vs[i], r, start, end, prot)
    && (forall j :: 0 <= j < |vs| && j != i ==> Grows(vs[j], r[j]))
    && FreeSlots(r) + Need(vs[i], start, end, prot) >= FreeSlots(vs)
  }

  /** Every other area lies outside the one in slot `i`. */
  lemma OthersOutside(vs: seq<VmArea>, i: nat)
    requires Sane(vs) && i < |vs| && vs[i].used
    ensures forall j :: 0 <= j < |vs| && j != i && vs[j].used ==> vs[j].end <= vs[i].start || vs[i].end <= vs[j].start
    ensures forall a: nat :: Covers(vs[i], a) ==> Lookup(vs, a) == Some(Attr(vs[i].prot, vs[i].flags))
  {
    forall j | 0 <= j < |vs| && j != i && vs[j].used
      ensures vs[j].end <= vs[i].start || vs[i].end <= vs[j].start
    {
      assert if j < i then Apart(vs[j], vs[i]) else Apart(vs[i], vs[j]);
    }
    forall a: nat | Covers(vs[i], a)
      ensures Lookup(vs, a) == Some(Attr(vs[i].prot, vs[i].flags))
    {
      LookupAt(vs, i, a);
    }
  }

  lemma ProtectHead(vs: seq<VmArea>, i: nat, start: nat, end: nat, prot: nat)
    requires Sane(vs) && i < |vs| && vs[i].used && start <= vs[i].start < end < vs[i].end
    requires RoomFor(vs, vs[i], start, end, prot)
    ensures SlotProtected(vs, i, ProtectSlot(vs, i, start, end, prot), start, end, prot)
  {
    hide FreeSlots, Lookup, Neighbour, Created, CreateSlot, Absorbed, Added;
    var v := vs[i];
    var cut, mid := vs[i := v.(end := end)], vs[i := v.(end := end, prot := prot)];
    OthersOutside(vs, i);
    ShrinkRemoves(vs, i, v.(end := end));
    RecolourChanges(cut, i, prot);
    assert mid == cut[i := cut[i].(prot := prot)];
    FreeSlotsUpdate(vs, i, mid[i]);
    assert v.prot == prot ==> Absorbs(mid[i], end, v.end, v.prot, v.flags);
    if Neighbour(vs, v.end, v.prot, v.flags) { NeighbourKept(vs, i, mid[i], v.end, v.prot, v.flags); }
    CreateUsesASlot(mid, end, v.end, v.prot, v.flags);
    CreateAdds(mid, end, v.end, v.prot, v.flags);
    CreateGrows(mid, end, v.end, v.prot, v.flags);
    PutBack(vs, i, mid, ProtectSlot(vs, i, start, end, prot), start, end, prot);
  }

  /** The end of an area cut off and put back in a new colour is just repainted. */
  lemma PutTail(vs: seq<VmArea>, v: VmArea, cut: seq<VmArea>, r: seq<VmArea>, start: nat, end: nat, prot: nat)
    requires v.used && v.start < start < end == v.end && Added(cut, r, start, end, prot, v.flags)
    requires forall a: nat :: Lookup(cut, a) == if start <= a < end then None else Lookup(vs, a)
    ensures Repainted(vs, v, r, start, end, prot)
  {
    forall a: nat
      ensures Lookup(r, a) == if Covers(v, a) && start <= a < end then Some(Attr(prot, v.flags)) else Lookup(vs, a)
    {
      assert Lookup(r, a) == if start <= a < end then Some(Attr(prot, v.flags)) else Lookup(cut, a);
    }
  }

  lemma ProtectTail(vs: seq<VmArea>, i: nat, start: nat, end: nat, prot: nat)
    requires Sane(vs) && i < |vs| && vs[i].used && vs[i].start < start < end == vs[i].end
    requires RoomFor(vs, vs[i], start, end, prot)
    ensures SlotProtected(vs, i, ProtectSlot(vs, i, start, end, prot), start, end, prot)
  {
    hide FreeSlots, Lookup, Neighbour, Repainted, Added;
    var v := vs[i];
    var cut := vs[i := v.(end := start)];
    OthersOutside(vs, i);
    ShrinkRemoves(vs, i, cut[i]);
    FreeSlotsUpdate(vs, i, cut[i]);
    assert v.prot == prot ==> Absorbs(cut[i], start, end, prot, v.flags);
    if Neighbour(vs, end, prot, v.flags) { NeighbourKept(vs, i, cut[i], end, prot, v.flags); }
    CreateUsesASlot(cut, start, end, prot, v.flags);
    CreateAdds(cut, start, end, prot, v.flags);
    CreateGrows(cut, start, end, prot, v.flags);
    PutTail(vs, v, cut, ProtectSlot(vs, i, start, end, prot), start, end, prot);
  }

  /** Placing the middle leaves a neighbour behind the area where it was. */
  lemma MiddleNeighbour(vs: seq<VmArea>, i: nat, start: nat, end: nat, prot: nat)
    requires Sane(vs) && i < |vs| && start < end && Splits(vs[i], start, end)
    requires Neighbour(vs, vs[i].end, vs[i].prot, vs[i].flags)
    ensures Neighbour(Created(vs[i := vs[i].(end := start)], start, end, prot, vs[i].flags),
                      vs[i].end, vs[i].prot, vs[i].flags)
  {
    var v, cut := vs[i], vs[i := vs[i].(end := start)];
    var k :| 0 <= k < |vs| && vs[k].used && vs[k].start == v.end && vs[k].prot == v.prot && vs[k].flags == v.flags;
    assert !Absorbs(cut[k], start, end, prot, v.flags) && cut[k] == vs[k];
    assert Created(cut, start, end, prot, v.flags)[k] == vs[k];
  }

  lemma ProtectMiddle(vs: seq<VmArea>, i: nat, start: nat, end: nat, prot: nat)
    requires Sane(vs) && i < |vs| && start < end && Splits(vs[i], start, end)
    requires RoomFor(vs, vs[i], start, end, prot)
    ensures SlotProtected(vs, i, ProtectSlot(vs, i, start, end, prot), start, end, prot)
  {
    hide FreeSlots, Lookup, Neighbour, Repainted, Added, CreateSlot;
    var v := vs[i];
    var mid := Created(vs[i := v.(end := start)], start, end, prot, v.flags);
    MiddleFirst(vs, i, start, end, prot);
    if Neighbour(vs, v.end, v.prot, v.flags) { MiddleNeighbour(vs, i, start, end, prot); }
    CreateUsesASlot(mid, end, v.end, v.prot, v.flags);
    CreateAdds(mid, end, v.end, v.prot, v.flags);
    CreateGrows(mid, end, v.end, v.prot, v.flags);
    OthersOutside(vs, i);
    PutBack(vs, i, mid, ProtectSlot(vs, i, start, end, prot), start, end, prot);
  }

  /** The state between the two `vma_create` calls of a split. */
  lemma MiddleFirst(vs: seq<VmArea>, i: nat, start: nat, end: nat, prot: nat)
    requires Sane(vs) && i < |vs| && start < end && Splits(vs[i], start, end)
    requires RoomFor(vs, vs[i], start, end, prot)
    ensures var v, mid := vs[i], Created(vs[i := vs[i].(end := start)], start, end, prot, vs[i].flags);
            && Sane(mid) && Clear(mid, end, v.end)
            && (forall a: nat :: Lookup(mid, a) ==
                                 if Covers(v, a) && start <= a < end then Some(Attr(prot, v.flags))
                                 else if end <= a < v.end then None else Lookup(vs, a))
            && (forall j :: 0 <= j < |vs| && j != i ==> Grows(vs[j], mid[j]))
            && FreeSlots(mid) + (if v.prot == prot then 0 else 1) >= FreeSlots(vs)
            && (v.prot == prot ==> Absorbs(mid[i], end, v.end, v.prot, v.flags))
  {
    var v := vs[i];
    var cut := vs[i := v.(end := start)];
    OthersOutside(vs, i);
    ShrinkRemoves(vs, i, cut[i]);
    FreeSlotsUpdate(vs, i, cut[i]);
    assert v.prot == prot ==> Absorbs(cut[i], start, end, prot, v.flags);
    CreateUsesASlot(cut, start, end, prot, v.flags);
    CreateAdds(cut, start, end, prot, v.flags);
    CreateGrows(cut, start, end, prot, v.flags);
    MiddleCreated(vs, i, start, end, prot);
  }

  /**
   After the middle of a split area is in place, the stretch behind it is clear; with equal protection it is
   absorbed.
   */
  lemma MiddleCreated(vs: seq<VmArea>, i: nat, start: nat, end: nat, prot: nat)
    requires Sane(vs) && i < |vs| && start < end && Splits(vs[i], start, end)
    requires CreateSlot(vs[i := vs[i].(end := start)], start, end, prot, vs[i].flags) < |vs|
    ensures var v, mid := vs[i], Created(vs[i := vs[i].(end := start)], start, end, prot, vs[i].flags);
            && Clear(mid, end, v.end)
            && (v.prot == prot ==> Absorbs(mid[i], end, v.end, v.prot, v.flags))
  {
    OthersOutside(vs, i);
    var v, cut := vs[i], vs[i := vs[i].(end := start)];
    if v.prot == prot {
      assert Absorbs(cut[i], start, end, prot, v.flags);
      assert forall j :: 0 <= j < |vs| && j != i ==> !Absorbs(cut[j], start, end, prot, v.flags);
    }
  }

  lemma ProtectSlotEffect(vs: seq<VmArea>, i: nat, start: nat, end: nat, prot: nat)
    requires Sane(vs) && i < |vs| && start < end && !Straddles(vs[i], start, end)
    requires RoomFor(vs, vs[i], start, end, prot)
    ensures SlotProtected(vs, i, ProtectSlot(vs, i, start, end, prot), start, end, prot)
  {
    var v := vs[i];
    if !Overlaps(v, start, end) {
    } else if start <= v.start && end >= v.end {
      RecolourChanges(vs, i, prot);
      FreeSlotsUpdate(vs, i, v.(prot := prot));
    } else if start <= v.start {
      ProtectHead(vs, i, start, end, prot);
    } else if end >= v.end {
      ProtectTail(vs, i, start, end, prot);
    } else {
      ProtectMiddle(vs, i, start, end, prot);
    }
  }

  /** A slot `vma_create` wrote to now begins where the range begins, or was extended to where it ends. */
  lemma CreatedSlot(vs: seq<VmArea>, start: nat, end: nat, prot: nat, flags: nat, j: nat)
    requires start < end && j < |vs| && (vs[j].used ==> vs[j].start < vs[j].end)
    ensures var w := Created(vs, start, end, prot, flags)[j];
            w == vs[j] || (w.used && w.prot == prot && (w.start == start ||
                           (vs[j].used && vs[j].end == start && w == vs[j].(end := end))))
  {
  }

  /** A round leaves no straddling area and no new cut area among the slots still to be visited. */
  lemma RoundLeavesNoCuts(vs: seq<VmArea>, i: nat, start: nat, end: nat, prot: nat, j: nat)
    requires Sane(vs) && i < j < |vs| && start < end && !Straddles(vs[i], start, end) && !Straddles(vs[j], start, end)
    ensures var w := ProtectSlot(vs, i, start, end, prot)[j];
            && !Straddles(w, start, end)
            && (CutBy(w, start, prot) ==> CutBy(vs[j], start, prot))
            && (CutBy(w, end, prot) ==> CutBy(vs[j], end, prot))
  {
    var v := vs[i];
    assert Apart(v, vs[j]);
    if Overlaps(v, start, end) && !(start <= v.start && end >= v.end) {
      if start <= v.start {
        CreatedSlot(vs[i := v.(end := end, prot := prot)], end, v.end, v.prot, v.flags, j);
      } else {
        var cut := vs[i := v.(end := start)];
        CreatedSlot(cut, start, end, prot, v.flags, j);
        if end < v.end {
          var mid := Created(cut, start, end, prot, v.flags);
          CreateGrows(cut, start, end, prot, v.flags);
          CreatedSlot(mid, end, v.end, v.prot, v.flags, j);
        }
      }
    }
  }

  ghost predicate NoStraddle(vs: seq<VmArea>, i: nat, start: nat, end: nat) {
    forall j :: i <= j < |vs| ==> !Straddles(vs[j], start, end)
  }

  ghost predicate RoomForAll(vs: seq<VmArea>, i: nat, start: nat, end: nat, prot: nat) {
    forall j :: i <= j < |vs| ==> RoomFor(vs, vs[j], start, end, prot)
  }

  /** A boundary of the range falls inside the area. */
  predicate Cut(v: VmArea, start: nat, end: nat) {
    v.used && (v.start < start < v.end || v.start < end < v.end)
  }

  /** When nothing straddles the start of the range, at most one area is cut. */
  lemma OneCut(vs: seq<VmArea>, i: nat, j: nat, start: nat, end: nat)
    requires Sane(vs) && start < end && i < |vs| && j < |vs| && i != j
    requires !Straddles(vs[i], start, end) && !Straddles(vs[j], start, end)
    requires Cut(vs[i], start, end) && Overlaps(vs[i], start, end)
    ensures !(Cut(vs[j], start, end) && Overlaps(vs[j], start, end))
  {
    assert if i < j then Apart(vs[i], vs[j]) else Apart(vs[j], vs[i]);
  }

  /** A round on an area that is not cut only changes that area's protection. */
  lemma PlainRound(vs: seq<VmArea>, i: nat, start: nat, end: nat, prot: nat)
    requires i < |vs| && start < end && !(Cut(vs[i], start, end) && Overlaps(vs[i], start, end))
    requires vs[i].used ==> vs[i].start < vs[i].end
    ensures var r := ProtectSlot(vs, i, start, end, prot);
            && (r == vs || (Overlaps(vs[i], start, end) && r == vs[i := vs[i].(prot := prot)]))
            && FreeSlots(r) == FreeSlots(vs)
  {
    FreeSlotsUpdate(vs, i, vs[i].(prot := prot));
  }

  /** Such a round leaves room for the areas still to be visited. */
  lemma PlainRoundKeepsRoom(vs: seq<VmArea>, i: nat, start: nat, end: nat, prot: nat, j: nat)
    requires i < |vs| && j < |vs| && j != i && start < end && !(Cut(vs[i], start, end) && Overlaps(vs[i], start, end))
    requires vs[i].used ==> vs[i].start < vs[i].end
    ensures var r := ProtectSlot(vs, i, start, end, prot);
            r[j] == vs[j] && (RoomFor(vs, vs[j], start, end, prot) <==> RoomFor(r, r[j], start, end, prot))
  {
    PlainRound(vs, i, start, end, prot);
    var r := ProtectSlot(vs, i, start, end, prot);
    if r != vs {
      SameNeighbours(vs, i, prot, end, end, prot, vs[j].flags);
      if end <= vs[j].end { SameNeighbours(vs, i, prot, end, vs[j].end, vs[j].prot, vs[j].flags); }
    }
  }

  lemma SameNeighbours(vs: seq<VmArea>, i: nat, colour: nat, end: nat, at: nat, prot: nat, flags: nat)
    requires i < |vs| && vs[i].start < end <= at
    ensures Neighbour(vs[i := vs[i].(prot := colour)], at, prot, flags) <==> Neighbour(vs, at, prot, flags)
  {
    var r := vs[i := vs[i].(prot := colour)];
    if Neighbour(vs, at, prot, flags) { NeighbourKept(vs, i, r[i], at, prot, flags); }
    if Neighbour(r, at, prot, flags) {
      NeighbourKept(r, i, vs[i], at, prot, flags);
      assert r[i := vs[i]] == vs;
    }
  }

  lemma RoundKeepsRoom(vs: seq<VmArea>, i: nat, start: nat, end: nat, prot: nat)
    requires Sane(vs) && i < |vs| && start < end && NoStraddle(vs, i, start, end) && RoomForAll(vs, i, start, end, prot)
    ensures var r := ProtectSlot(vs, i, start, end, prot);
            NoStraddle(r, i + 1, start, end) && RoomForAll(r, i + 1, start, end, prot)
  {
    hide RoomFor, ProtectSlot;
    var r := ProtectSlot(vs, i, start, end, prot);
    forall j | i < j < |vs| ensures !Straddles(r[j], start, end) && RoomFor(r, r[j], start, end, prot) {
      RoundLeavesNoCuts(vs, i, start, end, prot, j);
      if Cut(vs[i], start, end) && Overlaps(vs[i], start, end) {
        OneCut(vs, i, j, start, end);
        UncutHasRoom(r, vs[j], r[j], start, end, prot);
      } else {
        PlainRoundKeepsRoom(vs, i, start, end, prot, j);
      }
    }
  }

  lemma UncutHasRoom(r: seq<VmArea>, v: VmArea, w: VmArea, start: nat, end: nat, prot: nat)
    requires start < end && (CutBy(w, start, prot) ==> CutBy(v, start, prot)) &&
             (CutBy(w, end, prot) ==> CutBy(v, end, prot))
    requires !(Cut(v, start, end) && Overlaps(v, start, end))
    ensures RoomFor(r, w, start, end, prot)
  {
  }

  /** The loop from slot `i` on repaints the range in the areas it still has to visit. */
  lemma {:induction false} ProtectFromEffect(vs: seq<VmArea>, i: nat, start: nat, end: nat, prot: nat)
    requires Sane(vs) && i <= |vs| && start < end && NoStraddle(vs, i, start, end) &&
             RoomForAll(vs, i, start, end, prot)
    ensures var r := ProtectFrom(vs, i, start, end, prot);
            Sane(r) && forall a: nat ::
              Lookup(r, a) == if start <= a < end && CoveredFrom(vs, i, a) && Lookup(vs, a).Some?
                              then Some(Attr(prot, Lookup(vs, a).value.flags)) else Lookup(vs, a)
    decreases |vs| - i
  {
    if i < |vs| {
      var vs' := ProtectSlot(vs, i, start, end, prot);
      RoundKeepsRoom(vs, i, start, end, prot);
      ProtectSlotEffect(vs, i, start, end, prot);
      ProtectFromEffect(vs', i + 1, start, end, prot);
      var r := ProtectFrom(vs, i, start, end, prot);
      forall a: nat
        ensures Lookup(r, a) == if start <= a < end && CoveredFrom(vs, i, a) && Lookup(vs, a).Some?
                                then Some(Attr(prot, Lookup(vs, a).value.flags)) else Lookup(vs, a)
      {
        ProtectFromAt(vs, vs', i, start, end, prot, a);
      }
    }
  }

  lemma ProtectFromAt(vs: seq<VmArea>, vs': seq<VmArea>, i: nat, start: nat, end: nat, prot: nat, a: nat)
    requires Sane(vs) && Sane(vs') && i < |vs| == |vs'|
    requires Repainted(vs, vs[i], vs', start, end, prot)
    requires forall j :: 0 <= j < |vs| && j != i ==> Grows(vs[j], vs'[j])
    ensures var was, now := Lookup(vs, a), Lookup(vs', a);
            (if start <= a < end && CoveredFrom(vs', i + 1, a) && now.Some?
             then Some(Attr(prot, now.value.flags)) else now)
            == if start <= a < end && CoveredFrom(vs, i, a) && was.Some? then Some(Attr(prot, was.value.flags)) else was
  {
    var k := Find(vs, a, 0);
    if Covers(vs[i], a) {
      LookupAt(vs, i, a);
    } else if k < |vs| {
      assert Covers(vs'[k], a);
      if k < i {
        forall j | i <= j < |vs| ensures !Covers(vs[j], a) && (j != i ==> !Covers(vs'[j], a)) {
          assert Apart(vs[k], vs[j]);
          assert Apart(vs'[k], vs'[j]);
        }
      }
    } else {
      assert !CoveredFrom(vs, i, a);
    }
  }

  // What goes wrong when an area straddles the start of the range

  ghost predicate NonEmpty(vs: seq<VmArea>) {
    forall j :: 0 <= j < |vs| && vs[j].used ==> vs[j].start < vs[j].end
  }

  /** The area contains the start of the range without beginning there. */
  predicate HoldsStart(v: VmArea, start: nat) {
    v.used && v.start < start < v.end
  }

  ghost predicate NoneHoldsStart(vs: seq<VmArea>, i: nat, start: nat) {
    forall j :: i <= j < |vs| ==> !HoldsStart(vs[j], start)
  }

  /** Rounds on areas that do not hold the start never uncover an address of the range. */
  lemma RoundKeepsCover(vs: seq<VmArea>, i: nat, start: nat, end: nat, prot: nat, x: nat)
    requires NonEmpty(vs) && i < |vs| && start <= x < end && !HoldsStart(vs[i], start)
    ensures var r := ProtectSlot(vs, i, start, end, prot);
            && NonEmpty(r)
            && (forall k :: 0 <= k < |vs| && Covers(vs[k], x) ==> Covers(r[k], x))
            && (NoneHoldsStart(vs, i + 1, start) ==> NoneHoldsStart(r, i + 1, start))
  {
    var v := vs[i];
    if Overlaps(v, start, end) && end < v.end {
      var mid := vs[i := v.(end := end, prot := prot)];
      CreateGrows(mid, end, v.end, v.prot, v.flags);
      var r := ProtectSlot(vs, i, start, end, prot);
      forall j | 0 <= j < |vs| ensures r[j].used ==> r[j].start < r[j].end {
        CreatedSlot(mid, end, v.end, v.prot, v.flags, j);
      }
      if NoneHoldsStart(vs, i + 1, start) {
        forall j | i + 1 <= j < |vs| ensures !HoldsStart(r[j], start) {
          CreatedSlot(mid, end, v.end, v.prot, v.flags, j);
          assert !HoldsStart(vs[j], start);
        }
      }
    }
  }

  lemma {:induction false} LaterRoundsKeepCover(vs: seq<VmArea>, i: nat, start: nat, end: nat, prot: nat, x: nat)
    requires NonEmpty(vs) && i <= |vs| && start <= x < end && NoneHoldsStart(vs, i, start)
    ensures forall k :: 0 <= k < |vs| && Covers(vs[k], x) ==> Covers(ProtectFrom(vs, i, start, end, prot)[k], x)
    decreases |vs| - i
  {
    if i < |vs| {
      assert !HoldsStart(vs[i], start);
      assert NoneHoldsStart(vs, i + 1, start);
      RoundKeepsCover(vs, i, start, end, prot, x);
      LaterRoundsKeepCover(ProtectSlot(vs, i, start, end, prot), i + 1, start, end, prot, x);
    }
  }

  /** The round on the straddling area covers the address just behind it once more than before, if it finds a slot. */
  lemma StraddlerRound(vs: seq<VmArea>, s: nat, start: nat, end: nat, prot: nat) returns (k: nat)
    requires Sane(vs) && s < |vs| && Straddles(vs[s], start, end)
    requires CreateSlot(vs[s := vs[s].(end := start)], start, end, prot, vs[s].flags) < |vs|
    ensures var r, x := ProtectSlot(vs, s, start, end, prot), vs[s].end;
            && k < |vs| && Covers(r[k], x) && !Covers(vs[k], x)
            && NonEmpty(r) && NoneHoldsStart(r, s + 1, start)
            && (forall j :: 0 <= j < |vs| && Covers(vs[j], x) ==> Covers(r[j], x))
  {
    var v := vs[s];
    var cut, x := vs[s := v.(end := start)], v.end;
    OthersOutside(vs, s);
    CreateGrows(cut, start, end, prot, v.flags);
    k := CreateSlot(cut, start, end, prot, v.flags);
    var r := ProtectSlot(vs, s, start, end, prot);
    forall j | 0 <= j < |vs| ensures (r[j].used ==> r[j].start < r[j].end) && (j > s ==> !HoldsStart(r[j], start)) {
      CreatedSlot(cut, start, end, prot, v.flags, j);
    }
  }

  /** Without a slot the start of the range is covered by nothing any more. */
  lemma StraddlerLoses(vs: seq<VmArea>, s: nat, start: nat, end: nat, prot: nat)
    requires Sane(vs) && s < |vs| && HoldsStart(vs[s], start) && end >= vs[s].end > start
    requires CreateSlot(vs[s := vs[s].(end := start)], start, end, prot, vs[s].flags) == |vs|
    ensures var r := ProtectSlot(vs, s, start, end, prot);
            && NonEmpty(r) && NoneHoldsStart(r, s + 1, start) && NoneCovers(r, start)
  {
    OthersOutside(vs, s);
  }

  ghost predicate NoneCovers(vs: seq<VmArea>, x: nat) {
    forall j :: 0 <= j < |vs| ==> !Covers(vs[j], x)
  }

  /** A round on an area that does not hold the start keeps areas disjoint, whether or not it finds a slot. */
  lemma RoundSane(vs: seq<VmArea>, i: nat, start: nat, end: nat, prot: nat)
    requires Sane(vs) && i < |vs| && start < end && !HoldsStart(vs[i], start)
    ensures Sane(ProtectSlot(vs, i, start, end, prot))
  {
    hide Lookup, CreateSlot;
    var v := vs[i];
    if v.used {
      RecolourChanges(vs, i, prot);
      if start <= v.start < end < v.end {
        var cut, mid := vs[i := v.(end := end)], vs[i := v.(end := end, prot := prot)];
        OthersOutside(vs, i);
        ShrinkRemoves(vs, i, v.(end := end));
        RecolourChanges(cut, i, prot);
        assert mid == cut[i := cut[i].(prot := prot)];
        if CreateSlot(mid, end, v.end, v.prot, v.flags) < |vs| { CreateAdds(mid, end, v.end, v.prot, v.flags); }
      }
    }
  }

  /** Rounds before the straddling area leave it alone. */
  lemma RoundBeforeStraddler(vs: seq<VmArea>, i: nat, s: nat, start: nat, end: nat, prot: nat)
    requires Sane(vs) && i < s < |vs| && Straddles(vs[s], start, end)
    ensures var r := ProtectSlot(vs, i, start, end, prot);
            && Sane(r) && r[s] == vs[s]
            && (forall j :: 0 <= j < |vs| && Covers(vs[j], vs[s].end) ==> Covers(r[j], vs[s].end))
  {
    var r, v := ProtectSlot(vs, i, start, end, prot), vs[i];
    OthersOutside(vs, s);
    RoundSane(vs, i, start, end, prot);
    RoundKeepsCover(vs, i, start, end, prot, vs[s].end);
    if Overlaps(v, start, end) && end < v.end {
      CreatedSlot(vs[i := v.(end := end, prot := prot)], end, v.end, v.prot, v.flags, s);
    }
  }

  /** Rounds on areas that do not hold the start do not cover it either. */
  lemma {:induction false} StartStaysLost(vs: seq<VmArea>, i: nat, start: nat, end: nat, prot: nat)
    requires NonEmpty(vs) && i <= |vs| && start < end && NoneHoldsStart(vs, i, start) && NoneCovers(vs, start)
    ensures NoneCovers(ProtectFrom(vs, i, start, end, prot), start)
    decreases |vs| - i
  {
    if i < |vs| {
      var v, r := vs[i], ProtectSlot(vs, i, start, end, prot);
      assert !HoldsStart(v, start) && NoneHoldsStart(vs, i + 1, start) && !Covers(v, start);
      RoundKeepsCover(vs, i, start, end, prot, start);
      if Overlaps(v, start, end) && end < v.end {
        forall j | 0 <= j < |vs| ensures !Covers(r[j], start) {
          CreatedSlot(vs[i := v.(end := end, prot := prot)], end, v.end, v.prot, v.flags, j);
          assert !Covers(vs[j], start);
        }
      }
      StartStaysLost(r, i + 1, start, end, prot);
    }
  }

  /** What a straddling area leads to: its old end address is covered anew, or the start of the range is lost. */
  ghost predicate Spoilt(vs: seq<VmArea>, s: nat, r: seq<VmArea>, start: nat)
    requires s < |vs| == |r|
  {
    var x := vs[s].end;
    || NoneCovers(r, start)
    || ((exists k :: 0 <= k < |vs| && Covers(r[k], x) && !Covers(vs[k], x)) &&
        (forall j :: 0 <= j < |vs| && Covers(vs[j], x) ==> Covers(r[j], x)))
  }

  lemma {:induction false} StraddlerSpoils(vs: seq<VmArea>, i: nat, s: nat, start: nat, end: nat, prot: nat)
    requires Sane(vs) && i <= s < |vs| && Straddles(vs[s], start, end)
    ensures Spoilt(vs, s, ProtectFrom(vs, i, start, end, prot), start)
    decreases s - i
  {
    hide Sane, ProtectSlot, CreateSlot, NoneHoldsStart, NonEmpty;
    var vs' := ProtectSlot(vs, i, start, end, prot);
    if i < s {
      RoundBeforeStraddler(vs, i, s, start, end, prot);
      StraddlerSpoils(vs', i + 1, s, start, end, prot);
    } else if CreateSlot(vs[s := vs[s].(end := start)], start, end, prot, vs[s].flags) < |vs| {
      var k := StraddlerRound(vs, s, start, end, prot);
      LaterRoundsKeepCover(vs', s + 1, start, end, prot, vs[s].end);
    } else {
      StraddlerLoses(vs, s, start, end, prot);
      StartStaysLost(vs', s + 1, start, end, prot);
    }
  }

  lemma TwoCovers(vs: seq<VmArea>, j: nat, k: nat, a: nat)
    requires j < |vs| && k < |vs| && j != k && Covers(vs[j], a) && Covers(vs[k], a)
    ensures !Sane(vs)
  {
    if j < k {
      assert !Apart(vs[j], vs[k]);
    } else {
      assert !Apart(vs[k], vs[j]);
    }
  }

  /** Pointwise update of the protection inside the range, and disjoint areas again. */
  ghost predicate Updated(vs: seq<VmArea>, r: seq<VmArea>, start: nat, end: nat, prot: nat) {
    Sane(r) && forall a: nat ::
      Lookup(r, a) == if start <= a < end && Lookup(vs, a).Some?
                      then Some(Attr(prot, Lookup(vs, a).value.flags)) else Lookup(vs, a)
  }

  // What goes wrong when a cut finds no slot

  /** From slot `i` on no area is cut: the rounds only repaint, and cover nothing more. */
  lemma {:induction false} PlainRoundsCover(vs: seq<VmArea>, i: nat, start: nat, end: nat, prot: nat, x: nat)
    requires NonEmpty(vs) && i <= |vs| && start < end && NoneCovers(vs, x)
    requires forall j :: i <= j < |vs| ==> !(Cut(vs[j], start, end) && Overlaps(vs[j], start, end))
    ensures NoneCovers(ProtectFrom(vs, i, start, end, prot), x)
    decreases |vs| - i
  {
    if i < |vs| {
      var r := ProtectSlot(vs, i, start, end, prot);
      PlainRound(vs, i, start, end, prot);
      forall j | 0 <= j < |vs| ensures !Covers(r[j], x) && (r[j].used ==> r[j].start < r[j].end) {
        assert !Covers(vs[j], x);
      }
      PlainRoundsCover(r, i + 1, start, end, prot, x);
    }
  }

  /** The address that a cut without room loses. */
  ghost function LostAddress(vs: seq<VmArea>, v: VmArea, start: nat, end: nat): nat {
    if v.start < start && (v.end == end || FreeSlots(vs) == 0) then start else end
  }

  /** What losing an address in a round means for the rounds to come. */
  ghost predicate Loses(vs: seq<VmArea>, i: nat, r: seq<VmArea>, start: nat, end: nat, x: nat)
    requires i < |vs| == |r|
  {
    && Covers(vs[i], x) && NoneCovers(r, x) && NonEmpty(r)
    && forall j :: i < j < |vs| ==> !(Cut(r[j], start, end) && Overlaps(r[j], start, end))
  }

  lemma NoSlot(vs: seq<VmArea>, start: nat, end: nat, prot: nat, flags: nat)
    requires FreeSlots(vs) == 0 && forall k :: 0 <= k < |vs| ==> !Absorbs(vs[k], start, end, prot, flags)
    ensures CreateSlot(vs, start, end, prot, flags) == |vs|
  {
    FreeSlotExists(vs);
  }

  /** No area but a neighbour behind can take in the end of the area in slot `i`. */
  lemma OnlyNeighbour(vs: seq<VmArea>, i: nat, at: nat, prot: nat, k: nat)
    requires Sane(vs) && i < |vs| && k < |vs| && k != i && vs[i].used && vs[i].start < at < vs[i].end
    requires Absorbs(vs[k], at, vs[i].end, prot, vs[i].flags)
    ensures Neighbour(vs, vs[i].end, prot, vs[i].flags)
  {
    OthersOutside(vs, i);
  }

  lemma RoomlessEnd(vs: seq<VmArea>, i: nat, start: nat, end: nat, prot: nat)
    requires Sane(vs) && i < |vs| && start < end && NoStraddle(vs, i, start, end)
    requires CutBy(vs[i], start, prot) && vs[i].end == end && FreeSlots(vs) == 0 &&
             !Neighbour(vs, end, prot, vs[i].flags)
    ensures Loses(vs, i, ProtectSlot(vs, i, start, end, prot), start, end, start)
  {
    var v, cut := vs[i], vs[i := vs[i].(end := start)];
    OthersOutside(vs, i);
    FreeSlotsUpdate(vs, i, cut[i]);
    forall k | 0 <= k < |vs| ensures !Absorbs(cut[k], start, end, prot, v.flags) {
      if k != i && Absorbs(vs[k], start, end, prot, v.flags) { OnlyNeighbour(vs, i, start, prot, k); }
    }
    NoSlot(cut, start, end, prot, v.flags);
    forall j | i < j < |vs|
      ensures !(Cut(vs[j], start, end) && Overlaps(vs[j], start, end))
    {
      OneCut(vs, i, j, start, end);
    }
  }

  lemma RoomlessBegin(vs: seq<VmArea>, i: nat, start: nat, end: nat, prot: nat)
    requires Sane(vs) && i < |vs| && start < end && NoStraddle(vs, i, start, end)
    requires CutBy(vs[i], end, prot) && start <= vs[i].start && FreeSlots(vs) == 0
    requires !Neighbour(vs, vs[i].end, vs[i].prot, vs[i].flags)
    ensures Loses(vs, i, ProtectSlot(vs, i, start, end, prot), start, end, end)
  {
    var v, mid := vs[i], vs[i := vs[i].(end := end, prot := prot)];
    OthersOutside(vs, i);
    FreeSlotsUpdate(vs, i, mid[i]);
    forall k | 0 <= k < |vs| ensures !Absorbs(mid[k], end, v.end, v.prot, v.flags) {
      if k != i && Absorbs(vs[k], end, v.end, v.prot, v.flags) { OnlyNeighbour(vs, i, end, v.prot, k); }
    }
    NoSlot(mid, end, v.end, v.prot, v.flags);
    forall j | i < j < |vs|
      ensures !(Cut(vs[j], start, end) && Overlaps(vs[j], start, end))
    {
      OneCut(vs, i, j, start, end);
    }
  }

  /** With no slot at all the middle is lost, whatever becomes of the part behind it. */
  lemma RoomlessMiddle(vs: seq<VmArea>, i: nat, start: nat, end: nat, prot: nat)
    requires Sane(vs) && i < |vs| && start < end && NoStraddle(vs, i, start, end)
    requires CutBy(vs[i], start, prot) && end < vs[i].end && FreeSlots(vs) == 0
    ensures Loses(vs, i, ProtectSlot(vs, i, start, end, prot), start, end, start)
  {
    var v, cut := vs[i], vs[i := vs[i].(end := start)];
    OthersOutside(vs, i);
    FreeSlotsUpdate(vs, i, cut[i]);
    NoSlot(cut, start, end, prot, v.flags);
    var r := ProtectSlot(vs, i, start, end, prot);
    assert r == Created(cut, end, v.end, v.prot, v.flags);
    forall j | 0 <= j < |vs|
      ensures !Covers(r[j], start) && (r[j].used ==> r[j].start < r[j].end)
      ensures i < j ==> !(Cut(r[j], start, end) && Overlaps(r[j], start, end))
    {
      CreatedSlot(cut, end, v.end, v.prot, v.flags, j);
      if i != j { OneCut(vs, i, j, start, end); }
    }
  }

  /** The middle of a split area goes to a free slot when its protection is another. */
  lemma MiddleTakesSlot(vs: seq<VmArea>, i: nat, start: nat, end: nat, prot: nat) returns (k: nat)
    requires Sane(vs) && i < |vs| && start < end && CutBy(vs[i], start, prot) && end < vs[i].end && FreeSlots(vs) > 0
    ensures var cut := vs[i := vs[i].(end := start)];
            var mid := Created(cut, start, end, prot, vs[i].flags);
            && k < |vs| && k != i && !vs[k].used && mid == cut[k := VmArea(start, end, prot, vs[i].flags, true)]
            && FreeSlots(mid) == FreeSlots(vs) - 1
  {
    var v, cut := vs[i], vs[i := vs[i].(end := start)];
    OthersOutside(vs, i);
    FreeSlotsUpdate(vs, i, cut[i]);
    assert forall l :: 0 <= l < |vs| ==> !Absorbs(cut[l], start, end, prot, v.flags);
    CreateUsesASlot(cut, start, end, prot, v.flags);
    k := CreateSlot(cut, start, end, prot, v.flags);
    FreeSlotsUpdate(cut, k, VmArea(start, end, prot, v.flags, true));
  }

  /** With one slot and no neighbour the middle takes the slot and the part behind it is lost. */
  lemma RoomlessRest(vs: seq<VmArea>, i: nat, start: nat, end: nat, prot: nat)
    requires Sane(vs) && i < |vs| && start < end && NoStraddle(vs, i, start, end)
    requires CutBy(vs[i], start, prot) && end < vs[i].end && FreeSlots(vs) == 1
    requires !Neighbour(vs, vs[i].end, vs[i].prot, vs[i].flags)
    ensures Loses(vs, i, ProtectSlot(vs, i, start, end, prot), start, end, end)
  {
    hide FreeSlots, Created, Neighbour;
    var k := MiddleTakesSlot(vs, i, start, end, prot);
    var v, mid := vs[i], Created(vs[i := vs[i].(end := start)], start, end, prot, vs[i].flags);
    OthersOutside(vs, i);
    forall l | 0 <= l < |vs| ensures !Absorbs(mid[l], end, v.end, v.prot, v.flags) {
      if l != i && l != k && Absorbs(vs[l], end, v.end, v.prot, v.flags) { OnlyNeighbour(vs, i, end, v.prot, l); }
    }
    NoSlot(mid, end, v.end, v.prot, v.flags);
    NoSlotSame(mid, end, v.end, v.prot, v.flags);
    assert ProtectSlot(vs, i, start, end, prot) == mid;
    forall j | i < j < |vs| && j != k ensures !(Cut(vs[j], start, end) && Overlaps(vs[j], start, end)) {
      OneCut(vs, i, j, start, end);
    }
  }

  lemma NoSlotSame(vs: seq<VmArea>, start: nat, end: nat, prot: nat, flags: nat)
    requires CreateSlot(vs, start, end, prot, flags) == |vs|
    ensures Created(vs, start, end, prot, flags) == vs
  {
  }

  /** The round on the area that has no room loses an address. */
  lemma RoomlessRound(vs: seq<VmArea>, i: nat, start: nat, end: nat, prot: nat)
    requires Sane(vs) && i < |vs| && start < end && NoStraddle(vs, i, start, end) &&
             !RoomFor(vs, vs[i], start, end, prot)
    ensures Loses(vs, i, ProtectSlot(vs, i, start, end, prot), start, end, LostAddress(vs, vs[i], start, end))
  {
    hide Loses, ProtectSlot, Neighbour, FreeSlots;
    var v := vs[i];
    assert !Straddles(v, start, end);
    if start <= v.start {
      RoomlessBegin(vs, i, start, end, prot);
    } else if v.end == end {
      RoomlessEnd(vs, i, start, end, prot);
    } else if FreeSlots(vs) == 0 {
      RoomlessMiddle(vs, i, start, end, prot);
    } else {
      RoomlessRest(vs, i, start, end, prot);
    }
  }

  /** So the address is lost in the end. */
  lemma {:induction false} RoomlessLoses(vs: seq<VmArea>, i: nat, s: nat, start: nat, end: nat, prot: nat)
    requires Sane(vs) && i <= s < |vs| && start < end && NoStraddle(vs, i, start, end)
    requires !RoomFor(vs, vs[s], start, end, prot)
    ensures var x := LostAddress(vs, vs[s], start, end);
            Covers(vs[s], x) && NoneCovers(ProtectFrom(vs, i, start, end, prot), x)
    decreases s - i
  {
    var r := ProtectSlot(vs, i, start, end, prot);
    if i < s {
      if Cut(vs[i], start, end) && Overlaps(vs[i], start, end) { OneCut(vs, i, s, start, end); }
      PlainRound(vs, i, start, end, prot);
      PlainRoundKeepsRoom(vs, i, start, end, prot, s);
      if vs[i].used { RecolourChanges(vs, i, prot); }
      RoomlessLoses(r, i + 1, s, start, end, prot);
    } else {
      RoomlessRound(vs, i, start, end, prot);
      PlainRoundsCover(r, i + 1, start, end, prot, LostAddress(vs, vs[i], start, end));
    }
  }

  /**
   `vma_protect` is a pointwise update exactly when no area begins before the range and ends
   inside it, and there is a slot for each piece that a cut makes.
   */
  lemma ProtectIsUpdate(vs: seq<VmArea>, start: nat, end: nat, prot: nat)
    requires Sane(vs) && start < end
    ensures Updated(vs, ProtectFrom(vs, 0, start, end, prot), start, end, prot) <==>
            NoStraddle(vs, 0, start, end) && RoomForAll(vs, 0, start, end, prot)
  {
    var r := ProtectFrom(vs, 0, start, end, prot);
    if !NoStraddle(vs, 0, start, end) {
      var s :| 0 <= s < |vs| && Straddles(vs[s], start, end);
      StraddlerSpoils(vs, 0, s, start, end, prot);
      SpoiltIsNoUpdate(vs, s, r, start, end, prot);
    } else if !RoomForAll(vs, 0, start, end, prot) {
      var s :| 0 <= s < |vs| && !RoomFor(vs, vs[s], start, end, prot);
      RoomlessLoses(vs, 0, s, start, end, prot);
      LostIsNoUpdate(vs, s, r, start, end, prot, LostAddress(vs, vs[s], start, end));
    } else {
      ProtectFromEffect(vs, 0, start, end, prot);
      forall a: nat | Lookup(vs, a).Some? ensures CoveredFrom(vs, 0, a) {
        assert Covers(vs[Find(vs, a, 0)], a);
      }
    }
  }

  lemma LostIsNoUpdate(vs: seq<VmArea>, s: nat, r: seq<VmArea>, start: nat, end: nat, prot: nat, x: nat)
    requires Sane(vs) && s < |vs| && Covers(vs[s], x) && NoneCovers(r, x)
    ensures !Updated(vs, r, start, end, prot)
  {
    LookupAt(vs, s, x);
    LookupNone(r, x);
  }

  lemma SpoiltIsNoUpdate(vs: seq<VmArea>, s: nat, r: seq<VmArea>, start: nat, end: nat, prot: nat)
    requires Sane(vs) && s < |vs| == |r| && Straddles(vs[s], start, end) && Spoilt(vs, s, r, start)
    ensures !Updated(vs, r, start, end, prot)
  {
    if NoneCovers(r, start) {
      LostIsNoUpdate(vs, s, r, start, end, prot, start);
    } else {
      var x := vs[s].end;
      var k :| 0 <= k < |vs| && Covers(r[k], x) && !Covers(vs[k], x);
      var j := Find(vs, x, 0);
      if j < |vs| {
        TwoCovers(r, j, k, x);
      } else {
        assert Lookup(vs, x) == None && Lookup(r, x).Some?;
      }
    }
  }

  // Where the two operations fall short

  function Unused(n: nat): seq<VmArea> { seq(n, _ => VmArea(0, 0, 0, 0, false)) }

  /** One area, and protection of its end and what follows: an address that was not mapped becomes so. */
  lemma ProtectMapsBeyond()
    ensures var vs := [VmArea(0, 0x2000, 1, 2, true)] + Unused(31);
            && |vs| == MAX_PROCESS_VMAS && Sane(vs)
            && Lookup(vs, 0x2000) == None && Lookup(ProtectFrom(vs, 0, 0x1000, 0x3000, 3), 0x2000).Some?
  {
    var vs := [VmArea(0, 0x2000, 1, 2, true)] + Unused(31);
    var cut := vs[0 := vs[0].(end := 0x1000)];
    assert !cut[1].used;
    FreeSlotExists(cut);
    CreateUsesASlot(cut, 0x1000, 0x3000, 3, 2);
    LookupNone(vs, 0x2000);
    var k := StraddlerRound(vs, 0, 0x1000, 0x3000, 3);
    LaterRoundsKeepCover(ProtectSlot(vs, 0, 0x1000, 0x3000, 3), 1, 0x1000, 0x3000, 3, 0x2000);
    assert Covers(ProtectFrom(vs, 0, 0x1000, 0x3000, 3)[k], 0x2000);
  }

  /** A full table, and a hole in the middle of one area: the part behind the hole is lost. */
  lemma RemoveLosesRemainder()
    ensures var vs := seq(MAX_PROCESS_VMAS, i requires 0 <= i => VmArea(0x10000 * i, 0x10000 * i + 0x3000, 1, 2, true));
            Sane(vs) && Lookup(vs, 0x2000).Some? && Lookup(RemoveFrom(vs, 0, 0x1000, 0x2000), 0x2000) == None
  {
    var vs := seq(MAX_PROCESS_VMAS, i requires 0 <= i => VmArea(0x10000 * i, 0x10000 * i + 0x3000, 1, 2, true));
    RemainderLost(vs, 0, 0x1000, 0x2000);
  }

  // The table itself

  class AreaTable {
    const vmas: array<VmArea>

    ghost predicate Valid()
      reads vmas
    {
      vmas.Length == MAX_PROCESS_VMAS && Sane(vmas[..])
    }

    /** `vmm_init_process` */
    constructor ()
      ensures Valid() && fresh(vmas)
      ensures forall i :: 0 <= i < vmas.Length ==> !vmas[i].used
    {
      vmas := new VmArea[MAX_PROCESS_VMAS](_ => VmArea(0, 0, 0, 0, false));
    }

    method Create(start: nat, end: nat, prot: nat, flags: nat) returns (slot: Option<nat>)
      requires vmas.Length == MAX_PROCESS_VMAS
      modifies vmas
      ensures start >= end ==> slot == None && vmas[..] == old(vmas[..])
      ensures start < end ==>
                && vmas[..] == Created(old(vmas[..]), start, end, prot, flags)
                && var k := CreateSlot(old(vmas[..]), start, end, prot, flags);
                   slot == if k < MAX_PROCESS_VMAS then Some(k) else None
    {
      if start >= end { return None; }
      ghost var vs := vmas[..];
      for i := 0 to MAX_PROCESS_VMAS
        invariant vmas[..] == vs && FirstAbsorbing(vs, start, end, prot, flags, 0) >= i
      {
        var v := vmas[i];
        if v.used && v.prot == prot && v.flags == flags {
          if start >= v.start && end <= v.end {
            return Some(i);
          }
          if v.end == start {
            vmas[i] := v.(end := end);
            return Some(i);
          }
          if v.start == end {
            vmas[i] := v.(start := start);
            return Some(i);
          }
        }
      }
      for i := 0 to MAX_PROCESS_VMAS
        invariant vmas[..] == vs && FirstFree(vs, 0) >= i
      {
        if !vmas[i].used {
          vmas[i] := VmArea(start, end, prot, flags, true);
          return Some(i);
        }
      }
      return None;
    }

    method FindArea(addr: nat) returns (slot: Option<nat>)
      requires vmas.Length == MAX_PROCESS_VMAS
      ensures match slot
              case None => Lookup(vmas[..], addr) == None
              case Some(k) => k < MAX_PROCESS_VMAS && Covers(vmas[k], addr) &&
                              Lookup(vmas[..], addr) == Some(Attr(vmas[k].prot, vmas[k].flags))
    {
      for i := 0 to MAX_PROCESS_VMAS
        invariant Find(vmas[..], addr, 0) >= i
      {
        if vmas[i].used && addr >= vmas[i].start && addr < vmas[i].end {
          return Some(i);
        }
      }
      return None;
    }

    method Protect(start: nat, end: nat, prot: nat) returns (result: int)
      requires vmas.Length == MAX_PROCESS_VMAS
      modifies vmas
      ensures start >= end ==> result == -22 && vmas[..] == old(vmas[..])
      ensures start < end ==> result == 0 && vmas[..] == ProtectFrom(old(vmas[..]), 0, start, end, prot)
    {
      if start >= end { return -22; }
      for i := 0 to MAX_PROCESS_VMAS
        invariant ProtectFrom(vmas[..], i, start, end, prot) == ProtectFrom(old(vmas[..]), 0, start, end, prot)
      {
        ghost var vs := vmas[..];
        var v := vmas[i];
        if v.used && start < v.end && end > v.start {
          if start <= v.start && end >= v.end {
            vmas[i] := v.(prot := prot);
          } else if start <= v.start && end < v.end {
            vmas[i] := v.(end := end, prot := prot);
            var _ := Create(end, v.end, v.prot, v.flags);
          } else if start > v.start && end >= v.end {
            vmas[i] := v.(end := start);
            var _ := Create(start, end, prot, v.flags);
          } else {
            vmas[i] := v.(end := start);
            var _ := Create(start, end, prot, v.flags);
            var _ := Create(end, v.end, v.prot, v.flags);
          }
        }
        assert vmas[..] == ProtectSlot(vs, i, start, end, prot);
      }
      return 0;
    }

    method Remove(start: nat, end: nat) returns (result: int)
      requires vmas.Length == MAX_PROCESS_VMAS
      modifies vmas
      ensures start >= end ==> result == -22 && vmas[..] == old(vmas[..])
      ensures start < end ==> result == 0 && vmas[..] == RemoveFrom(old(vmas[..]), 0, start, end)
    {
      if start >= end { return -22; }
      for i := 0 to MAX_PROCESS_VMAS
        invariant RemoveFrom(vmas[..], i, start, end) == RemoveFrom(old(vmas[..]), 0, start, end)
      {
        ghost var vs := vmas[..];
        var v := vmas[i];
        if v.used && start < v.end && end > v.start {
          if start <= v.start && end >= v.end {
            vmas[i] := v.(used := false);
          } else if start <= v.start && end < v.end {
            vmas[i] := v.(start := end);
          } else if start > v.start && end >= v.end {
            vmas[i] := v.(end := start);
          } else {
            vmas[i] := v.(end := start);
            var _ := Create(end, v.end, v.prot, v.flags);
          }
        }
        assert vmas[..] == RemoveSlot(vs, i, start, end);
      }
      return 0;
    }
  }
}
