/** Cloning the pages of an address space for fork, a page at a time. */
module ForkLoops {
  import opened Machine
  import opened Paging
  import opened AddressSpaces
  import opened Handlers
  import opened AreaLoops

  ghost function CopiedPages(sp: Space): set<nat> {
    set p | p in sp.table && CopiesPage(sp, p)
  }

  /** The child's table when the pages `done` have been cloned. */
  ghost predicate ClonedTable(sp: Space, done: set<nat>, picks: map<nat, nat>, table: map<nat, Entry>) {
    && table.Keys == done
    && (forall p: nat :: p in picks <==> p in done && CopiesPage(sp, p))
    && (forall p: nat :: p in done && p in sp.table && BackingAt(sp.areas, p).Some? ==>
          table[p] == CloneEntry(BackingAt(sp.areas, p).value, sp.table[p], p, Pick(picks, p)))
  }

  /** Physical memory when the pages of `picks` have been copied to their frames. */
  ghost predicate CopiedData(sp: Space, ph: Phys, picks: map<nat, nat>, ph': Phys) {
    && ValidPicks(picks, ph.free)
    && ph'.free == ph.free - picks.Values && ph'.mem.Keys == ph.mem.Keys
    && (forall f: nat :: f in ph.mem && f !in picks.Values ==> ph'.mem[f] == ph.mem[f])
    && (forall p: nat :: p in picks ==>
          && p in sp.table && sp.table[p].target in ph.mem && picks[p] in ph.mem
          && ph'.mem[picks[p]] == ph.mem[sp.table[p].target])
  }

  /** A fork that has cloned the pages `done`. */
  ghost predicate ForkProgress(sp: Space, ph: Phys, done: set<nat>, picks: map<nat, nat>, table: map<nat, Entry>, ph': Phys) {
    ClonedTable(sp, done, picks, table) && CopiedData(sp, ph, picks, ph')
  }

  lemma MoreData(sp: Space, ph: Phys, picks: map<nat, nat>, ph': Phys, p: nat, frame: nat)
    requires CopiedData(sp, ph, picks, ph') && p !in picks && ph.free <= ph.mem.Keys && frame in ph'.free && p in sp.table
    requires sp.table[p].target in ph.mem && ph'.mem[sp.table[p].target] == ph.mem[sp.table[p].target]
    ensures CopiedData(sp, ph, picks[p := frame], Phys(ph'.free - {frame}, ph'.mem[frame := ph'.mem[sp.table[p].target]]))
  {
    hide BackingAt, CopiesPage;
    ExtendPicks(picks, ph.free, p, frame);
    forall q | q in picks
      ensures picks[q] != frame
    {
      assert picks[q] in picks.Values;
    }
  }

  lemma MoreTable(sp: Space, done: set<nat>, picks: map<nat, nat>, table: map<nat, Entry>, p: nat, b: Backing, frame: nat)
    requires ClonedTable(sp, done, picks, table) && p !in done && p in sp.table && BackingAt(sp.areas, p) == Some(b)
    ensures Copies(b, sp.table[p]) ==>
              ClonedTable(sp, done + {p}, picks[p := frame], table[p := CloneEntry(b, sp.table[p], p, frame)])
    ensures !Copies(b, sp.table[p]) ==>
              ClonedTable(sp, done + {p}, picks, table[p := CloneEntry(b, sp.table[p], p, frame)])
  {
    hide BackingAt, Copies, CloneEntry;
    assert CopiesPage(sp, p) <==> Copies(b, sp.table[p]);
    if !Copies(b, sp.table[p]) {
      UnusedPick(b, sp.table[p], p, frame, Pick(picks, p));
    }
  }

  lemma ForkStart(sp: Space, ph: Phys)
    ensures ForkProgress(sp, ph, Gone(sp, 0, 0, ADDRESS_LIMIT), map[], map[], ph)
  {
    assert Gone(sp, 0, 0, ADDRESS_LIMIT) == {};
  }

  lemma ForkSourceOk(sp: Space, ph: Phys, done: set<nat>, picks: map<nat, nat>, table: map<nat, Entry>, ph': Phys,
                     p: nat, b: Backing)
    requires ph.free <= ph.mem.Keys && SpaceOk(sp, ph) && ForkProgress(sp, ph, done, picks, table, ph')
    requires p in sp.table && BackingAt(sp.areas, p) == Some(b)
    ensures UnmapOk(b.handler, sp.table[p], ph')
    ensures Owns(b.handler, sp.table[p]) ==>
              sp.table[p].target in ph.mem && ph'.mem[sp.table[p].target] == ph.mem[sp.table[p].target]
    ensures p !in done ==> p !in table && p !in picks
    ensures Copies(b, sp.table[p]) <==> CopiesPage(sp, p)
    ensures Copies(b, sp.table[p]) ==> Owns(b.handler, sp.table[p])
  {
    hide BackingAt, WellFormed, FaultPage, LinearTarget, CloneEntry;
    assert EntryOk(b, p, sp.table[p], ph);
  }

  lemma UnusedPick(b: Backing, e: Entry, p: nat, f: nat, g: nat)
    requires !Copies(b, e)
    ensures CloneEntry(b, e, p, f) == CloneEntry(b, e, p, g)
  {
    hide LinearTarget;
  }

  lemma ForkStuck(sp: Space, ph: Phys, done: set<nat>, picks: map<nat, nat>, table: map<nat, Entry>, ph': Phys)
    requires ForkProgress(sp, ph, done, picks, table, ph') && ph'.free == {}
    requires exists p :: p in CopiedPages(sp) && p !in done
    ensures |CopiedPages(sp)| > |ph.free|
  {
    hide BackingAt, CloneEntry, CopiesPage;
    PicksCount(picks, ph.free);
    var p :| p in CopiedPages(sp) && p !in done;
    assert picks.Keys < CopiedPages(sp);
    SmallerSet(picks.Keys, CopiedPages(sp));
  }

  lemma ForkDone(sp: Space, ph: Phys, picks: map<nat, nat>, sp': Space, ph': Phys)
    requires ph.free <= ph.mem.Keys && SpaceOk(sp, ph) && sp'.areas == sp.areas
    requires ForkProgress(sp, ph, Gone(sp, |sp.areas|, 0, ADDRESS_LIMIT), picks, sp'.table, ph')
    ensures Forked(sp, ph, picks, sp', ph') && SpaceOk(sp, ph') && SpaceOk(sp', ph')
    ensures |CopiedPages(sp)| <= |ph.free| && ph'.free <= ph'.mem.Keys
  {
    hide SpaceOk, Forked, Gone, ClonedTable, CopiedData;
    AllPagesGone(sp, ph);
    ForkIsForked(sp, ph, picks, sp', ph');
    ForkedOk(sp, ph, picks, sp', ph');
  }

  lemma ForkIsForked(sp: Space, ph: Phys, picks: map<nat, nat>, sp': Space, ph': Phys)
    requires ph.free <= ph.mem.Keys && sp'.areas == sp.areas
    requires ForkProgress(sp, ph, sp.table.Keys, picks, sp'.table, ph')
    ensures Forked(sp, ph, picks, sp', ph')
    ensures |CopiedPages(sp)| <= |ph.free| && ph'.free <= ph'.mem.Keys
  {
    hide BackingAt, CloneEntry, Copies, ValidPicks;
    PicksCount(picks, ph.free);
    assert CopiedPages(sp) == picks.Keys;
  }

  lemma AllPagesGone(sp: Space, ph: Phys)
    requires SpaceOk(sp, ph)
    ensures Gone(sp, |sp.areas|, 0, ADDRESS_LIMIT) == sp.table.Keys
  {
    hide EntryOk, InSpan, OwnsPage;
    assert sp.areas[..|sp.areas|] == sp.areas;
    forall p: nat | p in sp.table
      ensures InSpan(p, 0, ADDRESS_LIMIT)
    {
      AllBelowLimit(sp, ph, p);
    }
  }

  /** Clone one page. */
  method CloneNext(b: Backing, pt: PageTable, src: PageTable, heap: FrameHeap, p: nat, picks: map<nat, nat>,
                   ghost sp: Space, ghost ph: Phys, ghost done: set<nat>)
    returns (ok: bool, picks': map<nat, nat>)
    requires heap.Valid() && pt != src && src.entries == sp.table && ph.free <= ph.mem.Keys && SpaceOk(sp, ph)
    requires p in sp.table && BackingAt(sp.areas, p) == Some(b) && p !in done
    requires ForkProgress(sp, ph, done, picks, pt.entries, heap.State())
    modifies pt, heap
    ensures heap.Valid()
    ensures ForkProgress(sp, ph, if ok then done + {p} else done, picks', pt.entries, heap.State())
    ensures !ok ==> heap.free == {} && p in CopiedPages(sp)
  {
    hide EntryOk, BackingAt, WellFormed, CloneEntry, Copies, ClonedTable, CopiedData, UnmapOk, SpaceOk, CopiesPage;
    ghost var table, ph' := pt.entries, heap.State();
    ForkSourceOk(sp, ph, done, picks, table, ph', p, b);
    var frame;
    ok, frame := ClonePage(b.handler, pt, src, heap, p, b.attr);
    picks' := picks;
    if ok {
      MoreTable(sp, done, picks, table, p, b, frame);
      if Copies(b, src.entries[p]) {
        MoreData(sp, ph, picks, ph', p, frame);
        picks' := picks[p := frame];
      }
    }
  }

  /** Clone every page of one area. */
  method CloneArea(a: MemoryArea, pt: PageTable, src: PageTable, heap: FrameHeap, before: map<nat, nat>,
                   ghost sp: Space, ghost ph: Phys, ghost start: set<nat>)
    returns (ok: bool, picks: map<nat, nat>, ghost done: set<nat>)
    requires heap.Valid() && pt != src && src.entries == sp.table && ph.free <= ph.mem.Keys && SpaceOk(sp, ph)
    requires WellFormedArea(a) && PageSpan(a.start, a.end) !! start
    requires forall p :: p in PageSpan(a.start, a.end) ==> p in sp.table && BackingAt(sp.areas, p) == Some(BackingOf(a))
    requires ForkProgress(sp, ph, start, before, pt.entries, heap.State())
    modifies pt, heap
    ensures heap.Valid()
    ensures ForkProgress(sp, ph, done, picks, pt.entries, heap.State())
    ensures if ok then done == start + PageSpan(a.start, a.end)
            else heap.free == {} && exists p :: p in CopiedPages(sp) && p !in done
  {
    hide EntryOk, BackingAt, WellFormed, ForkProgress, SpaceOk, CopiedPages, PageSpan, InSpan, IsRange;
    EmptyRange(PageOf(a.start));
    var p: nat, first, last := PageOf(a.start), PageOf(a.start), PageOf(a.end - 1);
    ghost var range: set<nat> := {};
    picks, done := before, start;
    assert start + {} == start;
    while p <= last
      invariant first <= p <= last + 1 && IsRange(range, first, p) && done == start + range
      invariant heap.Valid() && src.entries == sp.table
      invariant ForkProgress(sp, ph, done, picks, pt.entries, heap.State())
    {
      RangeInSpan(range, a.start, a.end, p);
      ok, picks := CloneNext(BackingOf(a), pt, src, heap, p, picks, sp, ph, done);
      if !ok {
        return;
      }
      IsRangeStep(range, first, p);
      range, done, p := range + {p}, done + {p}, p + 1;
    }
    RangeIsSpan(range, a.start, a.end);
    ok := true;
  }
}
