/** The sorted vector of areas of an address space: lookup, insertion, cutting and free space. */
module Areas {
  import opened Machine
  import opened Paging

  /** `MemoryArea::contains`. */
  predicate Contains(a: MemoryArea, addr: nat) {
    a.start <= addr < a.end
  }

  /** `MemoryArea::is_overlap_with`: page overlap with `[start, end)`. */
  predicate Overlaps(a: MemoryArea, start: nat, end: nat)
    requires 1 <= a.end && 1 <= end
  {
    var p0 := PageOf(a.start);
    var p1 := PageOf(a.end - 1) + 1;
    var p2 := PageOf(start);
    var p3 := PageOf(end - 1) + 1;
    !(p1 <= p2 || p0 >= p3)
  }

  /** For a page-aligned area, page overlap is plain overlap of the two address ranges. */
  lemma OverlapsIff(a: MemoryArea, start: nat, end: nat)
    requires WellFormedArea(a) && 1 <= end
    ensures Overlaps(a, start, end) <==> a.start < end && start < a.end
  {
  }

  /** An aligned area contains an address exactly when it contains the address's page. */
  lemma PageInArea(a: MemoryArea, addr: nat)
    requires WellFormedArea(a)
    ensures InSpan(PageOf(addr), a.start, a.end) <==> Contains(a, addr)
    ensures !Aligned(addr) ==> addr != a.start && addr != a.end
  {
  }

  /** `MemorySet::test_free_area`. */
  predicate TestFree(areas: seq<MemoryArea>, start: nat, end: nat)
    requires WellFormed(areas) && 1 <= end
  {
    forall i :: 0 <= i < |areas| ==> !Overlaps(areas[i], start, end)
  }

  /** The first area that contains `addr`, as `iter().find` returns it. */
  function FindArea(areas: seq<MemoryArea>, addr: nat): Option<MemoryArea> {
    if areas == [] then None
    else if Contains(areas[0], addr) then Some(areas[0])
    else FindArea(areas[1..], addr)
  }

  // ---------------------------------------------------------------- meaning of a vector

  lemma {:induction false} BackingAtConcat(xs: seq<MemoryArea>, ys: seq<MemoryArea>, p: nat)
    ensures BackingAt(xs + ys, p) == if BackingAt(xs, p).Some? then BackingAt(xs, p) else BackingAt(ys, p)
  {
    if xs == [] {
      assert xs + ys == ys;
    } else {
      BackingAtConcat(xs[1..], ys, p);
      assert (xs + ys)[1..] == xs[1..] + ys;
    }
  }

  /** Every page of an area is backed as that area says. */
  lemma {:induction false} BackingOfMember(areas: seq<MemoryArea>, i: nat, p: nat)
    requires WellFormed(areas) && i < |areas| && InSpan(p, areas[i].start, areas[i].end)
    ensures BackingAt(areas, p) == Some(BackingOf(areas[i]))
  {
    if i > 0 {
      BackingOfMember(areas[1..], i - 1, p);
      assert areas[0].end <= areas[i].start;
      assert Aligned(areas[0].end) && Aligned(areas[i].start);
    }
  }

  /** Every backed page lies in some area. */
  lemma {:induction false} MemberOfBacking(areas: seq<MemoryArea>, p: nat) returns (i: nat)
    requires BackingAt(areas, p).Some?
    ensures i < |areas| && InSpan(p, areas[i].start, areas[i].end)
    ensures BackingAt(areas, p) == Some(BackingOf(areas[i]))
  {
    if InSpan(p, areas[0].start, areas[0].end) {
      i := 0;
    } else {
      var j := MemberOfBacking(areas[1..], p);
      i := j + 1;
    }
  }

  /** Looking an address up in the vector is looking its page up in the meaning. */
  lemma {:induction false} FindAreaIsBacking(areas: seq<MemoryArea>, addr: nat)
    requires WellFormed(areas)
    ensures match FindArea(areas, addr)
            case None => BackingAt(areas, PageOf(addr)) == None
            case Some(a) => a in areas && BackingAt(areas, PageOf(addr)) == Some(BackingOf(a))
  {
    if areas != [] {
      PageInArea(areas[0], addr);
      FindAreaIsBacking(areas[1..], addr);
    }
  }

  lemma FreePageUnbacked(areas: seq<MemoryArea>, start: nat, end: nat, p: nat)
    requires WellFormed(areas) && start < end && TestFree(areas, start, end) && InSpan(p, start, end)
    ensures BackingAt(areas, p) == None
  {
    forall i | 0 <= i < |areas|
      ensures !InSpan(p, areas[i].start, areas[i].end)
    {
      OverlapsIff(areas[i], start, end);
    }
    NoArea(areas, p);
  }

  /** A range is free exactly when none of its pages is backed. */
  lemma FreeIsUnbacked(areas: seq<MemoryArea>, start: nat, end: nat)
    requires WellFormed(areas) && start < end
    ensures TestFree(areas, start, end) <==> forall p: nat :: InSpan(p, start, end) ==> BackingAt(areas, p) == None
  {
    if TestFree(areas, start, end) {
      forall p: nat | InSpan(p, start, end)
        ensures BackingAt(areas, p) == None
      {
        FreePageUnbacked(areas, start, end, p);
      }
    } else {
      var i :| 0 <= i < |areas| && Overlaps(areas[i], start, end);
      OverlapsIff(areas[i], start, end);
      var p := PageOf(if start < areas[i].start then areas[i].start else start);
      BackingOfMember(areas, i, p);
    }
  }

  // ---------------------------------------------------------------- insertion

  /** Where `push` inserts: before the first area that starts later. */
  function InsertIndex(areas: seq<MemoryArea>, start: nat): (i: nat)
    ensures i <= |areas|
    ensures i < |areas| ==> start < areas[i].start
    ensures forall j :: 0 <= j < i ==> areas[j].start <= start
  {
    if areas == [] || start < areas[0].start then 0 else 1 + InsertIndex(areas[1..], start)
  }

  function Insert(areas: seq<MemoryArea>, a: MemoryArea): seq<MemoryArea> {
    var i := InsertIndex(areas, a.start);
    areas[..i] + [a] + areas[i..]
  }

  /** Inserting a free area keeps the vector sorted and disjoint. */
  lemma InsertKeepsOrder(areas: seq<MemoryArea>, a: MemoryArea)
    requires WellFormed(areas) && WellFormedArea(a) && TestFree(areas, a.start, a.end)
    ensures WellFormed(Insert(areas, a))
  {
    var i := InsertIndex(areas, a.start);
    forall j | 0 <= j < |areas|
      ensures if j < i then areas[j].end <= a.start else a.end <= areas[j].start
    {
      OverlapsIff(areas[j], a.start, a.end);
      assert i < j ==> areas[i].end <= areas[j].start;
    }
    var r := Insert(areas, a);
    assert forall j :: 0 <= j < |r| ==> r[j] == if j < i then areas[j] else if j == i then a else areas[j - 1];
  }

  /** Inserting a free area adds exactly its pages. */
  lemma InsertAddsPages(areas: seq<MemoryArea>, a: MemoryArea, p: nat)
    requires WellFormed(areas) && WellFormedArea(a) && TestFree(areas, a.start, a.end)
    ensures BackingAt(Insert(areas, a), p)
         == if InSpan(p, a.start, a.end) then Some(BackingOf(a)) else BackingAt(areas, p)
  {
    var i := InsertIndex(areas, a.start);
    BackingAtConcat(areas[..i] + [a], areas[i..], p);
    BackingAtConcat(areas[..i], [a], p);
    BackingAtConcat(areas[..i], areas[i..], p);
    assert areas[..i] + areas[i..] == areas;
    FreeIsUnbacked(areas, a.start, a.end);
  }

  lemma OnlyOneArea(areas: seq<MemoryArea>, i: nat, p: nat)
    requires WellFormed(areas) && i < |areas| && InSpan(p, areas[i].start, areas[i].end)
    ensures forall j :: 0 <= j < |areas| && j != i ==> !InSpan(p, areas[j].start, areas[j].end)
  {
    forall j | 0 <= j < |areas| && j != i
      ensures !InSpan(p, areas[j].start, areas[j].end)
    {
      assert WellFormedArea(areas[j]) && WellFormedArea(areas[i]);
      assert areas[j].end <= areas[i].start || areas[i].end <= areas[j].start;
    }
  }

  lemma {:induction false} NoArea(areas: seq<MemoryArea>, p: nat)
    requires forall j :: 0 <= j < |areas| ==> !InSpan(p, areas[j].start, areas[j].end)
    ensures BackingAt(areas, p) == None
  {
    if areas != [] {
      NoArea(areas[1..], p);
    }
  }

  /** Removing one whole area removes exactly its pages. */
  lemma RemoveDropsPages(areas: seq<MemoryArea>, i: nat, p: nat)
    requires WellFormed(areas) && i < |areas|
    ensures BackingAt(areas[..i] + areas[i + 1..], p)
         == if InSpan(p, areas[i].start, areas[i].end) then None else BackingAt(areas, p)
  {
    var left, right := areas[..i], areas[i + 1..];
    BackingAtConcat(left, right, p);
    BackingAtConcat(left, [areas[i]] + right, p);
    BackingAtConcat([areas[i]], right, p);
    assert left + ([areas[i]] + right) == areas;
    if InSpan(p, areas[i].start, areas[i].end) {
      BackingOfMember(areas, i, p);
      OnlyOneArea(areas, i, p);
      NoArea(left, p);
      NoArea(right, p);
    }
  }

  // ---------------------------------------------------------------- cutting

  /** What is left of one area when `[start, end)` is cut out. */
  function CutArea(a: MemoryArea, start: nat, end: nat): seq<MemoryArea>
    requires 1 <= a.end && 1 <= end
  {
    if !Overlaps(a, start, end) then [a]
    else
      (if a.start < start then [a.(end := start)] else [])
      + (if end < a.end then [a.(start := end)] else [])
  }

  function CutAll(areas: seq<MemoryArea>, start: nat, end: nat): seq<MemoryArea>
    requires 1 <= end
    requires forall i :: 0 <= i < |areas| ==> 1 <= areas[i].end
  {
    if areas == [] then [] else CutArea(areas[0], start, end) + CutAll(areas[1..], start, end)
  }

  /** Both ends of the cut either fall on a page boundary or in a page that no area covers. */
  predicate CleanCut(areas: seq<MemoryArea>, start: nat, end: nat) {
    && (Aligned(start) || BackingAt(areas, PageOf(start)) == None)
    && (Aligned(end) || BackingAt(areas, PageOf(end)) == None)
  }

  predicate CleanFor(a: MemoryArea, start: nat, end: nat) {
    && (Aligned(start) || !Contains(a, start))
    && (Aligned(end) || !Contains(a, end))
  }

  lemma CleanForMember(areas: seq<MemoryArea>, i: nat, start: nat, end: nat)
    requires WellFormed(areas) && i < |areas| && CleanCut(areas, start, end)
    ensures CleanFor(areas[i], start, end)
  {
    PageInArea(areas[i], start);
    PageInArea(areas[i], end);
    if Contains(areas[i], start) {
      BackingOfMember(areas, i, PageOf(start));
    }
    if Contains(areas[i], end) {
      BackingOfMember(areas, i, PageOf(end));
    }
  }

  /** An aligned address is not strictly inside any page. */
  lemma PageEdge(p: nat, addr: nat)
    requires Aligned(addr)
    ensures p * PAGE_SIZE < addr <==> (p + 1) * PAGE_SIZE <= addr
  {
  }

  lemma CutAreaKeepsOrder(a: MemoryArea, start: nat, end: nat)
    requires WellFormedArea(a) && start <= end && 1 <= end && CleanFor(a, start, end)
    ensures WellFormed(CutArea(a, start, end))
    ensures forall c :: c in CutArea(a, start, end) ==> a.start <= c.start && c.end <= a.end
  {
    OverlapsIff(a, start, end);
  }

  lemma CutAreaDropsPages(a: MemoryArea, start: nat, end: nat, p: nat)
    requires WellFormedArea(a) && start <= end && 1 <= end && CleanFor(a, start, end)
    ensures BackingAt(CutArea(a, start, end), p)
         == if InSpan(p, a.start, a.end) && !InSpan(p, start, end) then Some(BackingOf(a)) else None
  {
    OverlapsIff(a, start, end);
    PageEdge(p, a.start);
    PageEdge(p, a.end);
    if Overlaps(a, start, end) {
      if a.start < start {
        PageEdge(p, start);
      }
      if end < a.end {
        PageEdge(p, end);
      }
      if a.start < start && end < a.end {
        BackingAtConcat([a.(end := start)], [a.(start := end)], p);
      }
    } else {
      assert !(InSpan(p, a.start, a.end) && InSpan(p, start, end));
    }
  }

  /** Cutting a range out keeps the vector sorted, aligned and disjoint. */
  lemma {:induction false} CutAllKeepsOrder(areas: seq<MemoryArea>, start: nat, end: nat)
    requires WellFormed(areas) && start <= end && 1 <= end
    requires forall i :: 0 <= i < |areas| ==> CleanFor(areas[i], start, end)
    ensures WellFormed(CutAll(areas, start, end))
    ensures areas != [] ==> forall c :: c in CutAll(areas, start, end) ==> areas[0].start <= c.start
  {
    if areas != [] {
      var first, rest := CutArea(areas[0], start, end), CutAll(areas[1..], start, end);
      CutAllKeepsOrder(areas[1..], start, end);
      CutAreaKeepsOrder(areas[0], start, end);
      forall i, j | 0 <= i < |first| && 0 <= j < |rest|
        ensures first[i].end <= rest[j].start
      {
        assert first[i] in first && rest[j] in rest;
        assert areas[0].end <= areas[1].start;
      }
    }
  }

  /** Cutting a range out removes exactly its pages; every other page keeps attribute and handler. */
  lemma {:induction false} CutAllDropsPages(areas: seq<MemoryArea>, start: nat, end: nat, p: nat)
    requires WellFormed(areas) && start <= end && 1 <= end
    requires forall i :: 0 <= i < |areas| ==> CleanFor(areas[i], start, end)
    ensures BackingAt(CutAll(areas, start, end), p)
         == if InSpan(p, start, end) then None else BackingAt(areas, p)
  {
    if areas != [] {
      CutAllDropsPages(areas[1..], start, end, p);
      CutAreaDropsPages(areas[0], start, end, p);
      BackingAtConcat(CutArea(areas[0], start, end), CutAll(areas[1..], start, end), p);
    }
  }

  lemma {:induction false} CutAllContains(areas: seq<MemoryArea>, i: nat, start: nat, end: nat, c: MemoryArea)
    requires WellFormed(areas) && i < |areas| && 1 <= end
    requires c in CutArea(areas[i], start, end)
    ensures c in CutAll(areas, start, end)
  {
    if i > 0 {
      CutAllContains(areas[1..], i - 1, start, end, c);
    }
  }

  lemma CutPiece(areas: seq<MemoryArea>, i: nat, start: nat, end: nat, c: MemoryArea)
    requires WellFormed(areas) && i < |areas| && start <= end && 1 <= end && !WellFormedArea(c)
    requires areas[i].start < end && start < areas[i].end
    requires (c == areas[i].(end := start) && areas[i].start < start) || (c == areas[i].(start := end) && end < areas[i].end)
    ensures !WellFormed(CutAll(areas, start, end))
  {
    OverlapsIff(areas[i], start, end);
    assert c in CutArea(areas[i], start, end);
    CutAllContains(areas, i, start, end, c);
    var cut := CutAll(areas, start, end);
    var j :| 0 <= j < |cut| && cut[j] == c;
    assert !WellFormedArea(cut[j]);
  }

  /** An end of the cut that falls inside a backed page leaves an area with an unaligned edge. */
  lemma CutAllDirty(areas: seq<MemoryArea>, start: nat, end: nat)
    requires WellFormed(areas) && start <= end && 1 <= end && !CleanCut(areas, start, end)
    ensures !WellFormed(CutAll(areas, start, end))
  {
    if !Aligned(start) && BackingAt(areas, PageOf(start)).Some? {
      var i := MemberOfBacking(areas, PageOf(start));
      PageInArea(areas[i], start);
      CutPiece(areas, i, start, end, areas[i].(end := start));
    } else {
      var i := MemberOfBacking(areas, PageOf(end));
      PageInArea(areas[i], end);
      CutPiece(areas, i, start, end, areas[i].(start := end));
    }
  }

  /** Cutting keeps the area vector well formed exactly when the cut is clean. */
  lemma CutAllWellFormedIff(areas: seq<MemoryArea>, start: nat, end: nat)
    requires WellFormed(areas) && start <= end && 1 <= end
    ensures WellFormed(CutAll(areas, start, end)) <==> CleanCut(areas, start, end)
    ensures CleanCut(areas, start, end) ==>
              forall p: nat :: BackingAt(CutAll(areas, start, end), p)
                            == if InSpan(p, start, end) then None else BackingAt(areas, p)
  {
    if CleanCut(areas, start, end) {
      forall i | 0 <= i < |areas|
        ensures CleanFor(areas[i], start, end)
      {
        CleanForMember(areas, i, start, end);
      }
      CutAllKeepsOrder(areas, start, end);
      forall p: nat
        ensures BackingAt(CutAll(areas, start, end), p)
             == if InSpan(p, start, end) then None else BackingAt(areas, p)
      {
        CutAllDropsPages(areas, start, end, p);
      }
    } else {
      CutAllDirty(areas, start, end);
    }
  }

  /** A cut inside a page unmaps the page and leaves an area that still claims it. */
  lemma UnalignedCut(attr: MemoryAttr, handler: Handler)
    ensures var areas := [MemoryArea(0x1000, 0x3000, attr, handler)];
            var left := CutAll(areas, 0x1800, 0x2000);
            && WellFormed(areas) && !WellFormed(left)
            && InSpan(1, 0x1800, 0x2000) && BackingAt(left, 1) == Some(Backing(attr, handler))
  {
    var area := MemoryArea(0x1000, 0x3000, attr, handler);
    var low, high := area.(end := 0x1800), area.(start := 0x2000);
    OverlapsIff(area, 0x1800, 0x2000);
    assert CutArea(area, 0x1800, 0x2000) == [low, high];
    assert CutAll([area][1..], 0x1800, 0x2000) == [];
    assert CutAll([area], 0x1800, 0x2000) == [low, high];
    assert !WellFormedArea([low, high][0]);
  }
}
