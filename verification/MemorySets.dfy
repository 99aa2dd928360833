/** `MemorySet`: the areas and the page table of one address space, updated in place. */
module MemorySets {
  import opened Machine
  import opened Paging
  import opened Areas
  import opened AddressSpaces
  import opened Handlers
  import opened AreaLoops
  import opened ForkLoops

  /** `Vec::remove`. */
  function RemoveAt(s: seq<MemoryArea>, i: nat): (r: seq<MemoryArea>)
    requires i < |s|
    ensures |r| == |s| - 1
  {
    s[..i] + s[i + 1..]
  }

  /** `Vec::insert`. */
  function InsertAt(s: seq<MemoryArea>, i: nat, a: MemoryArea): (r: seq<MemoryArea>)
    requires i <= |s|
    ensures |r| == |s| + 1
  {
    s[..i] + [a] + s[i..]
  }

  /** Removing an element and inserting others at its place replaces it. */
  lemma Replaced(s: seq<MemoryArea>, i: nat, a: MemoryArea, b: MemoryArea)
    requires i < |s|
    ensures RemoveAt(s, i) == s[..i] + [] + s[i + 1..]
    ensures InsertAt(RemoveAt(s, i), i, a) == s[..i] + ([a] + []) + s[i + 1..]
    ensures InsertAt(RemoveAt(s, i), i, b) == s[..i] + ([] + [b]) + s[i + 1..]
    ensures InsertAt(InsertAt(RemoveAt(s, i), i, a), i + 1, b) == s[..i] + ([a] + [b]) + s[i + 1..]
  {
  }

  datatype PushOutcome = Ignored | Overlapping | NoFrames | Done(area: MemoryArea, picks: map<nat, nat>)

  class MemorySet {
    var areas: seq<MemoryArea>
    const pageTable: PageTable

    ghost function State(): Space
      reads this, pageTable
    {
      Space(areas, pageTable.entries)
    }

    ghost predicate Valid(heap: FrameHeap)
      reads this, pageTable, heap
    {
      heap.Valid() && SpaceOk(State(), heap.State())
    }

    constructor ()
      ensures State() == Space([], map[]) && fresh(pageTable)
    {
      areas := [];
      pageTable := new PageTable();
    }

    /**
     `push`: an empty range is ignored; otherwise the range is widened to whole pages and must be
     free. It fails exactly on overlap or when an eager area needs more frames than are free.
     */
    method Push(heap: FrameHeap, start: nat, end: nat, attr: MemoryAttr, handler: Handler) returns (r: PushOutcome)
      requires Valid(heap) && end <= ADDRESS_LIMIT
      modifies this, pageTable, heap
      ensures r.Ignored? <==> start >= end
      ensures r.Overlapping? <==> start < end && !TestFree(old(areas), RoundDown(start), RoundUp(end))
      ensures r.NoFrames? <==>
                && start < end && TestFree(old(areas), RoundDown(start), RoundUp(end))
                && handler.ByFrame? && |old(heap.free)| < |PageSpan(RoundDown(start), RoundUp(end))|
      ensures r.Ignored? || r.Overlapping? ==> State() == old(State()) && heap.State() == old(heap.State())
      ensures r.Done? ==>
                && r.area == MemoryArea(RoundDown(start), RoundUp(end), attr, handler)
                && Pushed(old(State()), old(heap.State()), r.area, r.picks, State(), heap.State())
      ensures !r.NoFrames? ==> Valid(heap)
    {
      hide Mapped, EntryOk, BackingAt, Overlaps, RoundUp, RoundDown, WellFormed, ValidPicks, MapEntries, PageSpan, OwnsPage;
      ghost var sp, ph := State(), heap.State();
      if start >= end {
        return Ignored;
      }
      var area := MemoryArea(RoundDown(start), RoundUp(end), attr, handler);
      RoundedWellFormed(start, end, area);
      if !TestFree(areas, area.start, area.end) {
        return Overlapping;
      }
      FreeIsUnmapped(sp, ph, area);
      var ok, picks := MapArea(area, pageTable, heap);
      if !ok {
        return NoFrames;
      }
      var idx := InsertIndex(areas, area.start);
      areas := areas[..idx] + [area] + areas[idx..];
      MappedIsUnion(BackingOf(area), PageSpan(area.start, area.end), picks, sp.table, pageTable.entries);
      PushedOk(sp, ph, area, picks, State(), heap.State());
      return Done(area, picks);
    }

    /** `pop`: removes the area with exactly these bounds; without one the source panics. */
    method Pop(heap: FrameHeap, start: nat, end: nat) returns (found: bool)
      requires Valid(heap) && start <= end
      modifies this, pageTable, heap
      ensures Valid(heap)
      ensures found <==> exists i :: 0 <= i < |old(areas)| && old(areas)[i].start == start && old(areas)[i].end == end
      ensures if found then 1 <= end && Removed(old(State()), old(heap.State()), PageSpan(start, end), State(), heap.State())
              else State() == old(State()) && heap.State() == old(heap.State())
    {
      hide EntryOk, BackingAt, WellFormed, OwnsPage, InSpan, PageSpan;
      ghost var sp, ph := State(), heap.State();
      for i := 0 to |areas|
        invariant State() == sp && heap.State() == ph
        invariant forall j :: 0 <= j < i ==> !(areas[j].start == start && areas[j].end == end)
      {
        if areas[i].start == start && areas[i].end == end {
          var area := areas[i];
          areas := areas[..i] + areas[i + 1..];
          WholeArea(sp, ph, i);
          UnmapPart(pageTable, heap, area.handler, start, end, sp, ph, {});
          WholeAreaRemoved(sp, ph, i, State(), heap.State());
          return true;
        }
      }
      return false;
    }

    /** The four ways in which a range can hit the area at index `i`; the index may wrap below zero. */
    method CutAt(heap: FrameHeap, i: nat, start: nat, end: nat, ghost sp: Space, ghost ph: Phys, ghost k: nat)
      returns (next: nat)
      requires heap.Valid() && start <= end && 1 <= end && i < |areas| && i < 0x20_0000_0000_0000
      requires SpaceOk(sp, ph) && k < |sp.areas| && sp.areas[k] == areas[i]
      requires WellFormedArea(areas[i]) && Overlaps(areas[i], start, end)
      requires PartlyRemoved(sp, ph, Gone(sp, k, start, end), pageTable.entries, heap.State())
      modifies this, pageTable, heap
      ensures heap.Valid()
      ensures areas == old(areas)[..i] + CutArea(old(areas)[i], start, end) + old(areas)[i + 1..]
      ensures Usize(next + 1) == i + |CutArea(old(areas)[i], start, end)|
      ensures PartlyRemoved(sp, ph, Gone(sp, k + 1, start, end), pageTable.entries, heap.State())
    {
      hide EntryOk, BackingAt, WellFormed, OwnsPage, InSpan, PageSpan, Overlaps, Frames, Gone, PartlyRemoved, SpaceOk, Usize,
           RemoveAt, InsertAt;
      var area := areas[i];
      WrapAround(i);
      OverlapsIff(area, start, end);
      GoneStep(sp, ph, k, start, end);
      Replaced(areas, i, area.(end := start), area.(start := end));
      ghost var gone := Gone(sp, k, start, end);
      areas := RemoveAt(areas, i);
      if area.start >= start && area.end <= end {
        // subset
        UnmapPart(pageTable, heap, area.handler, area.start, area.end, sp, ph, gone);
        next := Usize(i - 1);
      } else if area.start >= start && area.start < end {
        // prefix
        UnmapPart(pageTable, heap, area.handler, area.start, end, sp, ph, gone);
        areas := InsertAt(areas, i, area.(start := end));
        next := i;
      } else if area.end <= end && area.end > start {
        // postfix
        UnmapPart(pageTable, heap, area.handler, start, area.end, sp, ph, gone);
        areas := InsertAt(areas, i, area.(end := start));
        next := i;
      } else {
        // superset
        UnmapPart(pageTable, heap, area.handler, start, end, sp, ph, gone);
        areas := InsertAt(areas, i, area.(end := start));
        areas := InsertAt(areas, i + 1, area.(start := end));
        next := i + 1;
        assert next + 1 == i + 2;
      }
    }

    /** One round of the loop: cut the area at the index if the range hits it, and step the index on. */
    method CutRound(heap: FrameHeap, i: nat, start: nat, end: nat, ghost sp: Space, ghost ph: Phys, ghost k: nat)
      returns (next: nat)
      requires heap.Valid() && start <= end && 1 <= end && i < |areas| && SpaceOk(sp, ph) && k <= |sp.areas|
      requires CutProgress(sp, k, start, end, areas, i)
      requires PartlyRemoved(sp, ph, Gone(sp, k, start, end), pageTable.entries, heap.State())
      modifies this, pageTable, heap
      ensures heap.Valid() && k < |sp.areas| && CutProgress(sp, k + 1, start, end, areas, next)
      ensures next <= |areas| && |areas| - next == |old(areas)| - i - 1
      ensures PartlyRemoved(sp, ph, Gone(sp, k + 1, start, end), pageTable.entries, heap.State())
    {
      hide EntryOk, BackingAt, OwnsPage, InSpan, PageSpan, Overlaps, CutAll, CutProgress, Frames, Gone, PartlyRemoved,
           CutArea;
      CutNext(sp, ph, k, start, end, areas, i);
      ghost var before := areas;
      next := i;
      if Overlaps(areas[i], start, end) {
        next := CutAt(heap, i, start, end, sp, ph, k);
      } else {
        GoneSkip(sp, k, start, end);
        UncutArea(areas, i, start, end);
      }
      next := Usize(next + 1);
      CutStep(sp, ph, k, start, end, before, i, areas, next);
    }

    /**
     `pop_with_split`, for any range: every area is cut, exactly the pages the range touches are
     unmapped and their frames freed. The set stays valid exactly when neither end of the range
     falls inside a mapped page; then precisely those pages leave the meaning of the set.
     */
    method PopWithSplit(heap: FrameHeap, start: nat, end: nat)
      requires Valid(heap) && start <= end && 1 <= end
      modifies this, pageTable, heap
      ensures areas == CutAll(old(areas), start, end)
      ensures pageTable.entries == old(pageTable.entries) - PageSpan(start, end)
      ensures heap.free == old(heap.free) + Frames(old(State()), PageSpan(start, end)) && heap.mem == old(heap.mem)
      ensures Valid(heap) <==> CleanCut(old(areas), start, end)
      ensures CleanCut(old(areas), start, end) ==>
                Removed(old(State()), old(heap.State()), PageSpan(start, end), State(), heap.State())
    {
      hide EntryOk, BackingAt, WellFormed, OwnsPage, InSpan, PageSpan, Overlaps, CutAll, CutProgress, CleanCut, Frames, Gone,
           PartlyRemoved, Removed;
      ghost var sp, ph := State(), heap.State();
      ghost var k := 0;
      var i := 0;
      CutStart(sp, ph, start, end);
      while i < |areas|
        invariant 0 <= i <= |areas| && k <= |sp.areas|
        invariant CutProgress(sp, k, start, end, areas, i)
        invariant heap.Valid() && PartlyRemoved(sp, ph, Gone(sp, k, start, end), pageTable.entries, heap.State())
        decreases |areas| - i
      {
        i := CutRound(heap, i, start, end, sp, ph, k);
        k := k + 1;
      }
      CutFinished(sp, k, start, end, areas, i);
      GoneAll(sp, ph, start, end, pageTable.entries, heap.State());
      CutDone(sp, ph, start, end, State(), heap.State());
    }

    /** `clear` (and dropping the set): everything is unmapped and every owned frame is freed. */
    method Clear(heap: FrameHeap)
      requires Valid(heap)
      modifies this, pageTable, heap
      ensures Valid(heap) && State() == Space([], map[])
      ensures Removed(old(State()), old(heap.State()), old(pageTable.entries).Keys, State(), heap.State())
    {
      hide EntryOk, BackingAt, WellFormed, OwnsPage, InSpan, PageSpan, Overlaps, Frames, Gone;
      ghost var sp, ph := State(), heap.State();
      CutStart(sp, ph, 0, ADDRESS_LIMIT);
      for k := 0 to |areas|
        invariant areas == sp.areas && heap.Valid()
        invariant PartlyRemoved(sp, ph, Gone(sp, k, 0, ADDRESS_LIMIT), pageTable.entries, heap.State())
      {
        WholeArea(sp, ph, k);
        OverlapsIff(areas[k], 0, ADDRESS_LIMIT);
        GoneStep(sp, ph, k, 0, ADDRESS_LIMIT);
        UnmapPart(pageTable, heap, areas[k].handler, areas[k].start, areas[k].end, sp, ph, Gone(sp, k, 0, ADDRESS_LIMIT));
      }
      GoneAll(sp, ph, 0, ADDRESS_LIMIT, pageTable.entries, heap.State());
      areas := [];
      ClearDone(sp, ph, State(), heap.State());
    }

    /**
     `handle_page_fault`: succeeds exactly when the address lies in a lazy area whose page is absent
     (and a frame is free); then only that page changes.
     */
    method HandlePageFault(heap: FrameHeap, addr: nat) returns (r: FaultOutcome)
      requires Valid(heap)
      modifies this, pageTable, heap
      ensures Valid(heap)
      ensures r.Refused? <==> !(FaultsIn(old(State()), PageOf(addr)))
      ensures r.OutOfFrames? ==> old(heap.free) == {}
      ensures !r.Handled? ==> State() == old(State()) && heap.State() == old(heap.State())
      ensures r.Handled? ==> Faulted(old(State()), old(heap.State()), PageOf(addr), r.frame, State(), heap.State())
    {
      hide EntryOk, BackingAt, WellFormed, OwnsPage, PageOf, FaultPage;
      ghost var sp, ph := State(), heap.State();
      FindAreaIsBacking(areas, addr);
      var area := FindArea(areas, addr);
      if area.None? {
        return Refused;
      }
      r := FaultIn(area.value.handler, pageTable, heap, PageOf(addr));
      if r.Handled? {
        FaultedOk(sp, ph, PageOf(addr), r.frame, State(), heap.State());
      }
    }

    /**
     `clone` (fork): the copy has the same areas and, page by page, the entry and the data that
     `clone_map` gives it; this set is untouched. It fails exactly when there are fewer free frames
     than pages that hold data.
     */
    method Clone(heap: FrameHeap) returns (ok: bool, child: MemorySet, picks: map<nat, nat>)
      requires Valid(heap)
      modifies heap
      ensures State() == old(State()) && fresh(child) && fresh(child.pageTable)
      ensures ok <==> |CopiedPages(State())| <= |old(heap.free)|
      ensures ok ==> Forked(State(), old(heap.State()), picks, child.State(), heap.State())
      ensures ok ==> Valid(heap) && child.Valid(heap)
    {
      hide EntryOk, BackingAt, WellFormed, OwnsPage, InSpan, ForkProgress, CopiesPage, Gone, PageSpan, Overlaps, Forked,
           CopiedPages;
      ghost var sp, ph := State(), heap.State();
      child := new MemorySet();
      picks := map[];
      ForkStart(sp, ph);
      for k := 0 to |areas|
        invariant State() == sp && heap.Valid() && fresh(child) && fresh(child.pageTable)
        invariant ForkProgress(sp, ph, Gone(sp, k, 0, ADDRESS_LIMIT), picks, child.pageTable.entries, heap.State())
      {
        WholeArea(sp, ph, k);
        OverlapsIff(areas[k], 0, ADDRESS_LIMIT);
        GoneStep(sp, ph, k, 0, ADDRESS_LIMIT);
        ghost var done;
        ok, picks, done :=
          CloneArea(areas[k], child.pageTable, pageTable, heap, picks, sp, ph, Gone(sp, k, 0, ADDRESS_LIMIT));
        if !ok {
          ForkStuck(sp, ph, done, picks, child.pageTable.entries, heap.State());
          return;
        }
      }
      child.areas := areas;
      ForkDone(sp, ph, picks, child.State(), heap.State());
      ok := true;
    }
  }

  lemma UncutArea(areas: seq<MemoryArea>, i: nat, start: nat, end: nat)
    requires i < |areas| && i < 0x20_0000_0000_0000 && 1 <= areas[i].end && 1 <= end && !Overlaps(areas[i], start, end)
    ensures areas == areas[..i] + CutArea(areas[i], start, end) + areas[i + 1..]
    ensures Usize(i + 1) == i + |CutArea(areas[i], start, end)|
  {
  }

  /** Stepping below index zero and back up again is harmless. */
  lemma WrapAround(i: nat)
    requires i < 0x20_0000_0000_0000
    ensures Usize(Usize(i - 1) + 1) == i && Usize(i + 1) == i + 1 && Usize(i + 2) == i + 2
  {
  }

  lemma RoundedWellFormed(start: nat, end: nat, a: MemoryArea)
    requires start < end <= ADDRESS_LIMIT && a.start == RoundDown(start) && a.end == RoundUp(end)
    ensures WellFormedArea(a)
  {
  }

  lemma FreeIsUnmapped(sp: Space, ph: Phys, a: MemoryArea)
    requires SpaceOk(sp, ph) && a.start < a.end && TestFree(sp.areas, a.start, a.end)
    ensures forall p :: p in PageSpan(a.start, a.end) ==> p !in sp.table
  {
    FreeIsUnbacked(sp.areas, a.start, a.end);
  }

  lemma WholeArea(sp: Space, ph: Phys, i: nat)
    requires SpaceOk(sp, ph) && i < |sp.areas|
    ensures WellFormedArea(sp.areas[i])
    ensures forall p :: p in PageSpan(sp.areas[i].start, sp.areas[i].end) ==>
              p in sp.table && BackingAt(sp.areas, p) == Some(BackingOf(sp.areas[i]))
    ensures PartlyRemoved(sp, ph, {}, sp.table, ph)
  {
    hide BackingAt, EntryOk, OwnsPage, InSpan;
    forall p: nat | InSpan(p, sp.areas[i].start, sp.areas[i].end)
      ensures BackingAt(sp.areas, p) == Some(BackingOf(sp.areas[i]))
    {
      BackingOfMember(sp.areas, i, p);
    }
    assert Frames(sp, {}) == {};
    assert sp.table - {} == sp.table;
  }

  lemma WholeAreaRemoved(sp: Space, ph: Phys, i: nat, sp': Space, ph': Phys)
    requires SpaceOk(sp, ph) && i < |sp.areas| && 1 <= sp.areas[i].end
    requires sp'.areas == sp.areas[..i] + sp.areas[i + 1..]
    requires PartlyRemoved(sp, ph, {} + PageSpan(sp.areas[i].start, sp.areas[i].end), sp'.table, ph')
    ensures Removed(sp, ph, PageSpan(sp.areas[i].start, sp.areas[i].end), sp', ph') && SpaceOk(sp', ph')
  {
    hide BackingAt, EntryOk, OwnsPage, InSpan;
    var pages := PageSpan(sp.areas[i].start, sp.areas[i].end);
    assert {} + pages == pages;
    forall p: nat
      ensures BackingAt(sp'.areas, p) == if p in pages then None else BackingAt(sp.areas, p)
    {
      RemoveDropsPages(sp.areas, i, p);
    }
    RemovedOk(sp, ph, pages, sp', ph');
  }

  /** The vector while it is being cut: the first `k` areas are done, the next one is at index `i`. */
  ghost predicate CutProgress(sp: Space, k: nat, start: nat, end: nat, areas: seq<MemoryArea>, i: nat)
    requires WellFormed(sp.areas) && k <= |sp.areas| && 1 <= end
  {
    areas == CutAll(sp.areas[..k], start, end) + sp.areas[k..] && i == |CutAll(sp.areas[..k], start, end)|
  }

  lemma CutStart(sp: Space, ph: Phys, start: nat, end: nat)
    requires WellFormed(sp.areas) && 1 <= end
    ensures CutProgress(sp, 0, start, end, sp.areas, 0)
    ensures PartlyRemoved(sp, ph, Gone(sp, 0, start, end), sp.table, ph)
  {
    assert Gone(sp, 0, start, end) == {};
    assert Frames(sp, {}) == {};
    assert sp.table - {} == sp.table;
  }

  /** The area at the index is the next one of the original vector. */
  lemma CutNext(sp: Space, ph: Phys, k: nat, start: nat, end: nat, areas: seq<MemoryArea>, i: nat)
    requires SpaceOk(sp, ph) && k <= |sp.areas| && 1 <= end
    requires CutProgress(sp, k, start, end, areas, i) && i < |areas|
    ensures k < |sp.areas| && areas[i] == sp.areas[k] && WellFormedArea(areas[i]) && i < 0x20_0000_0000_0000
  {
    hide EntryOk, BackingAt, OwnsPage, CutArea, Overlaps;
    CutAllLength(sp.areas[..k], start, end);
    AreaCount(sp.areas);
    assert WellFormedArea(sp.areas[|sp.areas| - 1]);
  }

  /** Replacing the area by what the cut leaves of it does one more area. */
  lemma CutStep(sp: Space, ph: Phys, k: nat, start: nat, end: nat, areas: seq<MemoryArea>, i: nat,
                areas': seq<MemoryArea>, i': nat)
    requires SpaceOk(sp, ph) && k < |sp.areas| && 1 <= end
    requires CutProgress(sp, k, start, end, areas, i) && i < |areas| && areas[i] == sp.areas[k]
    requires areas' == areas[..i] + CutArea(areas[i], start, end) + areas[i + 1..]
    requires i' == i + |CutArea(areas[i], start, end)|
    ensures CutProgress(sp, k + 1, start, end, areas', i')
  {
    hide EntryOk, BackingAt, OwnsPage, CutArea, Overlaps;
    assert areas[..i] == CutAll(sp.areas[..k], start, end) && areas[i + 1..] == sp.areas[k + 1..];
    assert sp.areas[..k + 1] == sp.areas[..k] + [sp.areas[k]];
    CutAllAppend(sp.areas[..k], sp.areas[k], start, end);
  }

  lemma CutFinished(sp: Space, k: nat, start: nat, end: nat, areas: seq<MemoryArea>, i: nat)
    requires WellFormed(sp.areas) && k <= |sp.areas| && 1 <= end
    requires CutProgress(sp, k, start, end, areas, i) && i == |areas|
    ensures k == |sp.areas| && areas == CutAll(sp.areas, start, end)
  {
    hide CutAll;
    assert sp.areas[..|sp.areas|] == sp.areas;
  }

  lemma CutDone(sp: Space, ph: Phys, start: nat, end: nat, sp': Space, ph': Phys)
    requires SpaceOk(sp, ph) && start <= end && 1 <= end
    requires sp'.areas == CutAll(sp.areas, start, end) && sp'.table == sp.table - PageSpan(start, end)
    requires ph' == ph.(free := ph.free + Frames(sp, PageSpan(start, end)))
    ensures SpaceOk(sp', ph') <==> CleanCut(sp.areas, start, end)
    ensures CleanCut(sp.areas, start, end) ==> Removed(sp, ph, PageSpan(start, end), sp', ph')
  {
    hide EntryOk, BackingAt, WellFormed, OwnsPage, InSpan, CleanCut, CutAll, Frames;
    CutAllWellFormedIff(sp.areas, start, end);
    if CleanCut(sp.areas, start, end) {
      RemovedOk(sp, ph, PageSpan(start, end), sp', ph');
    }
  }

  lemma ClearDone(sp: Space, ph: Phys, sp': Space, ph': Phys)
    requires SpaceOk(sp, ph) && sp'.areas == [] && sp'.table == sp.table - PageSpan(0, ADDRESS_LIMIT)
    requires ph' == ph.(free := ph.free + Frames(sp, PageSpan(0, ADDRESS_LIMIT)))
    ensures sp' == Space([], map[]) && Removed(sp, ph, sp.table.Keys, sp', ph') && SpaceOk(sp', ph')
  {
    hide EntryOk, InSpan, PageSpan;
    forall p: nat | p in sp.table
      ensures p in PageSpan(0, ADDRESS_LIMIT)
    {
      AllBelowLimit(sp, ph, p);
    }
    assert sp'.table == map[];
    assert Frames(sp, PageSpan(0, ADDRESS_LIMIT)) == Frames(sp, sp.table.Keys);
    RemovedOk(sp, ph, sp.table.Keys, sp', ph');
  }

  /** Page `p` is lazily backed and absent, so that a fault on it is to be served. */
  predicate FaultsIn(sp: Space, p: nat) {
    && BackingAt(sp.areas, p).Some? && Lazy(BackingAt(sp.areas, p).value.handler)
    && p in sp.table && !sp.table[p].present
  }

  // ---------------------------------------------------------------- cutting in place

  lemma {:induction false} CutAllAppend(areas: seq<MemoryArea>, a: MemoryArea, start: nat, end: nat)
    requires WellFormed(areas) && 1 <= a.end && 1 <= end
    ensures CutAll(areas + [a], start, end) == CutAll(areas, start, end) + CutArea(a, start, end)
  {
    hide Overlaps, CutArea;
    if areas == [] {
      assert areas + [a] == [a];
    } else {
      CutAllAppend(areas[1..], a, start, end);
      assert (areas + [a])[1..] == areas[1..] + [a];
    }
  }

  lemma {:induction false} CutAllLength(areas: seq<MemoryArea>, start: nat, end: nat)
    requires WellFormed(areas) && 1 <= end
    ensures |CutAll(areas, start, end)| <= 2 * |areas|
  {
    if areas != [] {
      CutAllLength(areas[1..], start, end);
    }
  }

  /** Areas take up address space, so their number is far below the word size. */
  lemma {:induction false} AreaCount(areas: seq<MemoryArea>)
    requires WellFormed(areas)
    ensures areas != [] ==> |areas| * PAGE_SIZE <= areas[|areas| - 1].end
  {
    if |areas| > 1 {
      var n := |areas| - 1;
      AreaCount(areas[..n]);
      assert areas[n - 1].end <= areas[n].start;
      assert WellFormedArea(areas[n]);
    }
  }
}
