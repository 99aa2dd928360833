/** Mapping and unmapping the pages of whole areas, a page at a time. */
module AreaLoops {
  import opened Machine
  import opened Paging
  import opened Areas
  import opened AddressSpaces
  import opened Handlers

  // ---------------------------------------------------------------- whole areas

  ghost predicate IsRange(s: set<nat>, lo: nat, hi: nat) {
    forall q: nat :: q in s <==> lo <= q < hi
  }

  lemma EmptyRange(lo: nat)
    ensures IsRange({}, lo, lo)
  {
  }

  lemma IsRangeStep(s: set<nat>, lo: nat, p: nat)
    requires IsRange(s, lo, p) && lo <= p
    ensures IsRange(s + {p}, lo, p + 1)
  {
  }

  lemma RangeInSpan(s: set<nat>, start: nat, end: nat, p: nat)
    requires 1 <= end && IsRange(s, PageOf(start), p) && PageOf(start) <= p <= PageOf(end - 1)
    ensures p in PageSpan(start, end) && p !in s && s < PageSpan(start, end)
  {
  }

  lemma RangeIsSpan(s: set<nat>, start: nat, end: nat)
    requires 1 <= end && IsRange(s, PageOf(start), PageOf(end - 1) + 1)
    ensures s == PageSpan(start, end)
  {
  }

  /** Entries after a mapping loop has done the pages `done`. */
  ghost predicate Mapped(b: Backing, done: set<nat>, picks: map<nat, nat>, table: map<nat, Entry>, table': map<nat, Entry>) {
    && table'.Keys == table.Keys + done
    && (forall q :: q in table && q !in done ==> table'[q] == table[q])
    && (forall q :: q in done ==> table'[q] == MapEntry(b, q, Pick(picks, q)))
  }

  lemma MappedIsUnion(b: Backing, done: set<nat>, picks: map<nat, nat>, table: map<nat, Entry>, table': map<nat, Entry>)
    requires Mapped(b, done, picks, table, table')
    ensures table' == table + MapEntries(b, done, picks)
  {
  }

  lemma MappedStep(b: Backing, done: set<nat>, picks: map<nat, nat>, picks': map<nat, nat>, p: nat, frame: nat,
                   table: map<nat, Entry>, table': map<nat, Entry>)
    requires Mapped(b, done, picks, table, table') && p !in done
    requires picks' == if b.handler.ByFrame? then picks[p := frame] else picks
    ensures Mapped(b, done + {p}, picks', table, table'[p := MapEntry(b, p, frame)])
  {
  }

  lemma ExtendPicks(picks: map<nat, nat>, free: set<nat>, p: nat, frame: nat)
    requires ValidPicks(picks, free) && p !in picks && frame in free && frame !in picks.Values
    ensures ValidPicks(picks[p := frame], free) && picks[p := frame].Values == picks.Values + {frame}
  {
    var picks' := picks[p := frame];
    forall q | q in picks
      ensures picks[q] in picks'.Values
    {
      assert picks'[q] == picks[q];
    }
    assert picks'[p] == frame;
    forall q, r | q in picks' && r in picks' && picks'[q] == picks'[r]
      ensures q == r
    {
      assert q in picks ==> picks[q] in picks.Values;
      assert r in picks ==> picks[r] in picks.Values;
    }
  }

  lemma DropPick(picks: map<nat, nat>, p: nat)
    requires p in picks && ValidPicks(picks, picks.Values)
    ensures var rest := picks - {p};
            ValidPicks(rest, rest.Values) && picks[p] !in rest.Values && picks.Values == rest.Values + {picks[p]}
  {
    var rest := picks - {p};
    assert forall q :: q in rest ==> rest[q] == picks[q];
    forall f | f in picks.Values
      ensures f in rest.Values + {picks[p]}
    {
      var q :| q in picks && picks[q] == f;
      assert q != p ==> q in rest && rest[q] == f;
    }
  }

  lemma {:induction false} InjectiveSize(picks: map<nat, nat>)
    requires ValidPicks(picks, picks.Values)
    ensures |picks.Values| == |picks.Keys|
  {
    if picks == map[] {
      assert picks.Values == {};
    } else {
      var p :| p in picks;
      DropPick(picks, p);
      InjectiveSize(picks - {p});
      assert picks.Keys == (picks - {p}).Keys + {p};
    }
  }

  /** Distinct pages get distinct frames, so as many frames are taken as there are pages. */
  lemma PicksCount(picks: map<nat, nat>, free: set<nat>)
    requires ValidPicks(picks, free)
    ensures |picks.Keys| <= |free|
    ensures free - picks.Values == {} ==> |free| == |picks.Keys|
  {
    InjectiveSize(picks);
    SubsetSize(picks.Values, free);
    if free - picks.Values == {} {
      forall f | f in free
        ensures f in picks.Values
      {
        assert f !in free - picks.Values;
      }
      assert free == picks.Values;
    }
  }

  lemma SubsetSize(a: set<nat>, b: set<nat>)
    requires a <= b
    ensures |a| <= |b|
  {
    assert b == a + (b - a);
  }

  lemma SmallerSet(a: set<nat>, b: set<nat>)
    requires a < b
    ensures |a| < |b|
  {
    assert b == a + (b - a);
  }

  /** The state of a mapping loop: `picks` have been handed out, and the pages `done` are mapped. */
  ghost predicate MapProgress(b: Backing, done: set<nat>, picks: map<nat, nat>, table: map<nat, Entry>, ph: Phys,
                              table': map<nat, Entry>, ph': Phys)
  {
    && picks.Keys == (if b.handler.ByFrame? then done else {})
    && ValidPicks(picks, ph.free)
    && ph' == ph.(free := ph.free - picks.Values)
    && Mapped(b, done, picks, table, table')
  }

  lemma MapProgressStep(b: Backing, done: set<nat>, picks: map<nat, nat>, picks': map<nat, nat>, p: nat, frame: nat,
                        table: map<nat, Entry>, ph: Phys, table': map<nat, Entry>, ph': Phys)
    requires MapProgress(b, done, picks, table, ph, table', ph') && p !in done
    requires picks' == if b.handler.ByFrame? then picks[p := frame] else picks
    requires b.handler.ByFrame? ==> frame in ph'.free
    ensures MapProgress(b, done + {p}, picks', table, ph, table'[p := MapEntry(b, p, frame)],
                        if b.handler.ByFrame? then ph'.(free := ph'.free - {frame}) else ph')
  {
    MappedStep(b, done, picks, picks', p, frame, table, table');
    if b.handler.ByFrame? {
      ExtendPicks(picks, ph.free, p, frame);
    }
  }

  lemma MapProgressStart(b: Backing, table: map<nat, Entry>, ph: Phys)
    ensures MapProgress(b, {}, map[], table, ph, table, ph)
  {
  }

  lemma NotYetMapped(b: Backing, done: set<nat>, picks: map<nat, nat>, table: map<nat, Entry>, table': map<nat, Entry>, p: nat)
    requires Mapped(b, done, picks, table, table') && p !in table && p !in done
    ensures p !in table'
  {
  }

  /** One turn of the mapping loop. */
  method MapNext(b: Backing, pt: PageTable, heap: FrameHeap, p: nat, picks: map<nat, nat>,
                 ghost done: set<nat>, ghost table: map<nat, Entry>, ghost ph: Phys)
    returns (ok: bool, picks': map<nat, nat>)
    requires heap.Valid() && p !in done && p !in pt.entries
    requires MapProgress(b, done, picks, table, ph, pt.entries, heap.State())
    modifies pt, heap
    ensures heap.Valid()
    ensures MapProgress(b, if ok then done + {p} else done, picks', table, ph, pt.entries, heap.State())
    ensures !ok ==> b.handler.ByFrame? && heap.free == {}
  {
    ghost var table', ph' := pt.entries, heap.State();
    var frame;
    ok, frame := MapPage(b.handler, pt, heap, p, b.attr);
    picks' := if ok && b.handler.ByFrame? then picks[p := frame] else picks;
    if ok {
      MapProgressStep(b, done, picks, picks', p, frame, table, ph, table', ph');
    }
  }

  /** `MemoryArea::map`: stops early only when the eager policy finds no free frame. */
  method MapPages(b: Backing, pt: PageTable, heap: FrameHeap, start: nat, end: nat)
    returns (ok: bool, picks: map<nat, nat>, ghost done: set<nat>)
    requires heap.Valid() && start < end
    requires forall p :: p in PageSpan(start, end) ==> p !in pt.entries
    modifies pt, heap
    ensures heap.Valid()
    ensures MapProgress(b, done, picks, old(pt.entries), old(heap.State()), pt.entries, heap.State())
    ensures if ok then done == PageSpan(start, end)
            else done < PageSpan(start, end) && b.handler.ByFrame? && heap.free == {}
  {
    hide Mapped, ValidPicks;
    var p: nat, first, last := PageOf(start), PageOf(start), PageOf(end - 1);
    ghost var table, ph := pt.entries, heap.State();
    done, picks := {}, map[];
    MapProgressStart(b, table, ph);
    while p <= last
      invariant first <= p <= last + 1
      invariant IsRange(done, first, p)
      invariant heap.Valid()
      invariant MapProgress(b, done, picks, table, ph, pt.entries, heap.State())
    {
      RangeInSpan(done, start, end, p);
      NotYetMapped(b, done, picks, table, pt.entries, p);
      ok, picks := MapNext(b, pt, heap, p, picks, done, table, ph);
      if !ok {
        return;
      }
      IsRangeStep(done, first, p);
      done, p := done + {p}, p + 1;
    }
    RangeIsSpan(done, start, end);
    ok := true;
  }

  /** Mapping a whole area fails exactly when the eager policy needs more frames than are free. */
  method MapArea(a: MemoryArea, pt: PageTable, heap: FrameHeap) returns (ok: bool, picks: map<nat, nat>)
    requires heap.Valid() && a.start < a.end
    requires forall p :: p in PageSpan(a.start, a.end) ==> p !in pt.entries
    modifies pt, heap
    ensures heap.Valid()
    ensures ok <==> (a.handler.ByFrame? ==> |PageSpan(a.start, a.end)| <= |old(heap.free)|)
    ensures ok ==> MapProgress(BackingOf(a), PageSpan(a.start, a.end), picks,
                               old(pt.entries), old(heap.State()), pt.entries, heap.State())
  {
    ghost var done;
    ok, picks, done := MapPages(BackingOf(a), pt, heap, a.start, a.end);
    PicksCount(picks, old(heap.free));
    if !ok {
      SmallerSet(done, PageSpan(a.start, a.end));
    }
  }

  /** The owned frames among entries that one handler manages. */
  function Targets(h: Handler, table: map<nat, Entry>, pages: set<nat>): set<nat> {
    set p | p in pages && p in table && Owns(h, table[p]) :: table[p].target
  }

  /** Unmapping `pages` will free each frame once. */
  ghost predicate Unmappable(h: Handler, table: map<nat, Entry>, ph: Phys, pages: set<nat>) {
    && (forall p :: p in pages ==> p in table && UnmapOk(h, table[p], ph))
    && (forall p, q :: p in pages && q in pages && p != q && Owns(h, table[p]) && Owns(h, table[q]) ==>
          table[p].target != table[q].target)
  }

  /** The state of an unmapping loop. */
  ghost predicate UnmapProgress(h: Handler, done: set<nat>, table: map<nat, Entry>, ph: Phys,
                                table': map<nat, Entry>, ph': Phys)
  {
    table' == table - done && ph' == ph.(free := ph.free + Targets(h, table, done))
  }

  lemma UnmapStep(h: Handler, table: map<nat, Entry>, ph: Phys, pages: set<nat>, done: set<nat>, p: nat)
    requires Unmappable(h, table, ph, pages) && done <= pages && p in pages && p !in done
    ensures UnmapOk(h, table[p], ph.(free := ph.free + Targets(h, table, done)))
    ensures Targets(h, table, done + {p}) == Targets(h, table, done) + if Owns(h, table[p]) then {table[p].target} else {}
    ensures table - done - {p} == table - (done + {p})
  {
    forall q | q in done && q in table && Owns(h, table[q]) && Owns(h, table[p])
      ensures table[q].target != table[p].target
    {
    }
  }

  /** One turn of the unmapping loop. */
  method UnmapNext(h: Handler, pt: PageTable, heap: FrameHeap, p: nat,
                   ghost pages: set<nat>, ghost done: set<nat>, ghost table: map<nat, Entry>, ghost ph: Phys)
    requires heap.Valid() && done <= pages && p in pages && p !in done && Unmappable(h, table, ph, pages)
    requires UnmapProgress(h, done, table, ph, pt.entries, heap.State())
    modifies pt, heap
    ensures heap.Valid() && UnmapProgress(h, done + {p}, table, ph, pt.entries, heap.State())
  {
    UnmapStep(h, table, ph, pages, done, p);
    UnmapPage(h, pt, heap, p);
  }

  /** `MemoryArea::unmap`: the pages of `[start, end)` go, and their frames are freed once each. */
  method UnmapPages(h: Handler, pt: PageTable, heap: FrameHeap, start: nat, end: nat)
    requires heap.Valid() && start <= end && 1 <= end
    requires Unmappable(h, pt.entries, heap.State(), PageSpan(start, end))
    modifies pt, heap
    ensures heap.Valid()
    ensures UnmapProgress(h, PageSpan(start, end), old(pt.entries), old(heap.State()), pt.entries, heap.State())
  {
    var p: nat, first, last := PageOf(start), PageOf(start), PageOf(end - 1);
    ghost var pages, table, ph := PageSpan(start, end), pt.entries, heap.State();
    ghost var done: set<nat> := {};
    while p <= last
      invariant first <= p <= last + 1
      invariant IsRange(done, first, p)
      invariant heap.Valid() && UnmapProgress(h, done, table, ph, pt.entries, heap.State())
    {
      RangeInSpan(done, start, end, p);
      UnmapNext(h, pt, heap, p, pages, done, table, ph);
      IsRangeStep(done, first, p);
      done := done + {p};
      p := p + 1;
    }
    RangeIsSpan(done, start, end);
  }

  // ---------------------------------------------------------------- removing pages area by area

  /** The pages `gone` have been unmapped from `sp` and their frames freed. */
  ghost predicate PartlyRemoved(sp: Space, ph: Phys, gone: set<nat>, table: map<nat, Entry>, ph': Phys) {
    table == sp.table - gone && ph' == ph.(free := ph.free + Frames(sp, gone))
  }

  /** Pages of one area that are still mapped can be unmapped by that area's handler. */
  lemma StillUnmappable(sp: Space, ph: Phys, gone: set<nat>, table: map<nat, Entry>, ph': Phys, h: Handler, pages: set<nat>)
    requires SpaceOk(sp, ph) && PartlyRemoved(sp, ph, gone, table, ph') && pages !! gone
    requires forall p :: p in pages ==> BackingAt(sp.areas, p).Some? && BackingAt(sp.areas, p).value.handler == h
    ensures Unmappable(h, table, ph', pages)
  {
    forall p | p in pages
      ensures p in table && UnmapOk(h, table[p], ph')
    {
      assert EntryOk(BackingAt(sp.areas, p).value, p, sp.table[p], ph);
      if Owns(h, table[p]) {
        KeptFrame(sp, ph, gone, p);
      }
    }
    forall p, q | p in pages && q in pages && p != q && Owns(h, table[p]) && Owns(h, table[q])
      ensures table[p].target != table[q].target
    {
      assert OwnsPage(sp, p) && OwnsPage(sp, q);
    }
  }

  lemma MorePagesGone(sp: Space, ph: Phys, gone: set<nat>, table: map<nat, Entry>, ph': Phys, h: Handler, pages: set<nat>,
                      table'': map<nat, Entry>, ph'': Phys)
    requires PartlyRemoved(sp, ph, gone, table, ph') && pages !! gone
    requires forall p :: p in pages ==> BackingAt(sp.areas, p).Some? && BackingAt(sp.areas, p).value.handler == h
    requires UnmapProgress(h, pages, table, ph', table'', ph'')
    ensures PartlyRemoved(sp, ph, gone + pages, table'', ph'')
  {
    assert Targets(h, table, pages) == Frames(sp, pages);
    assert Frames(sp, gone + pages) == Frames(sp, gone) + Frames(sp, pages);
    assert sp.table - gone - pages == sp.table - (gone + pages);
  }

  /** Unmap the part `[lo, hi)` of an area of `sp`. */
  method UnmapPart(pt: PageTable, heap: FrameHeap, h: Handler, lo: nat, hi: nat,
                   ghost sp: Space, ghost ph: Phys, ghost gone: set<nat>)
    requires heap.Valid() && lo <= hi && 1 <= hi && SpaceOk(sp, ph)
    requires PartlyRemoved(sp, ph, gone, pt.entries, heap.State())
    requires PageSpan(lo, hi) !! gone
    requires forall p :: p in PageSpan(lo, hi) ==> BackingAt(sp.areas, p).Some? && BackingAt(sp.areas, p).value.handler == h
    modifies pt, heap
    ensures heap.Valid()
    ensures PartlyRemoved(sp, ph, gone + PageSpan(lo, hi), pt.entries, heap.State())
  {
    ghost var table, ph' := pt.entries, heap.State();
    StillUnmappable(sp, ph, gone, table, ph', h, PageSpan(lo, hi));
    UnmapPages(h, pt, heap, lo, hi);
    MorePagesGone(sp, ph, gone, table, ph', h, PageSpan(lo, hi), pt.entries, heap.State());
  }

  /** The pages of `[start, end)` that lie in the first `k` areas. */
  ghost function Gone(sp: Space, k: nat, start: nat, end: nat): set<nat>
    requires k <= |sp.areas|
  {
    set p | p in sp.table && InSpan(p, start, end) && BackingAt(sp.areas[..k], p).Some?
  }

  function Max(a: nat, b: nat): nat { if a < b then b else a }

  function Min(a: nat, b: nat): nat { if a < b then a else b }

  lemma GoneAt(sp: Space, k: nat, start: nat, end: nat, p: nat)
    requires WellFormed(sp.areas) && k < |sp.areas|
    ensures BackingAt(sp.areas[..k + 1], p).Some?
        <==> BackingAt(sp.areas[..k], p).Some? || InSpan(p, sp.areas[k].start, sp.areas[k].end)
    ensures InSpan(p, sp.areas[k].start, sp.areas[k].end) ==>
              BackingAt(sp.areas[..k], p) == None && BackingAt(sp.areas, p) == Some(BackingOf(sp.areas[k]))
  {
    assert sp.areas[..k + 1] == sp.areas[..k] + [sp.areas[k]];
    BackingAtConcat(sp.areas[..k], [sp.areas[k]], p);
    if InSpan(p, sp.areas[k].start, sp.areas[k].end) {
      OnlyOneArea(sp.areas, k, p);
      NoArea(sp.areas[..k], p);
      BackingOfMember(sp.areas, k, p);
    }
  }

  /** Unmapping the hit part of area `k` takes exactly its pages of the range. */
  lemma GoneStep(sp: Space, ph: Phys, k: nat, start: nat, end: nat)
    requires SpaceOk(sp, ph) && k < |sp.areas| && start <= end && 1 <= end && Overlaps(sp.areas[k], start, end)
    ensures var a := sp.areas[k];
            var lo, hi := Max(start, a.start), Min(end, a.end);
            && lo <= hi && 1 <= hi
            && Gone(sp, k + 1, start, end) == Gone(sp, k, start, end) + PageSpan(lo, hi)
            && PageSpan(lo, hi) !! Gone(sp, k, start, end)
            && forall p :: p in PageSpan(lo, hi) ==>
                 BackingAt(sp.areas, p).Some? && BackingAt(sp.areas, p).value.handler == a.handler
  {
    hide EntryOk, BackingAt, InSpan, OwnsPage, PageSpan, Overlaps;
    var a := sp.areas[k];
    OverlapsIff(a, start, end);
    var lo, hi := Max(start, a.start), Min(end, a.end);
    forall p: nat
      ensures BackingAt(sp.areas[..k + 1], p).Some? <==> BackingAt(sp.areas[..k], p).Some? || InSpan(p, a.start, a.end)
      ensures InSpan(p, lo, hi) <==> InSpan(p, start, end) && InSpan(p, a.start, a.end)
      ensures InSpan(p, a.start, a.end) ==>
                p in sp.table && BackingAt(sp.areas[..k], p) == None && BackingAt(sp.areas, p) == Some(BackingOf(a))
    {
      GoneAt(sp, k, start, end, p);
      SpanOfBoth(p, start, end, a.start, a.end);
    }
  }

  lemma SpanOfBoth(p: nat, s: nat, e: nat, s': nat, e': nat)
    ensures InSpan(p, Max(s, s'), Min(e, e')) <==> InSpan(p, s, e) && InSpan(p, s', e')
  {
  }

  lemma GoneSkip(sp: Space, k: nat, start: nat, end: nat)
    requires WellFormed(sp.areas) && k < |sp.areas| && 1 <= end && !Overlaps(sp.areas[k], start, end)
    ensures Gone(sp, k + 1, start, end) == Gone(sp, k, start, end)
  {
    var a := sp.areas[k];
    OverlapsIff(a, start, end);
    forall p: nat | InSpan(p, start, end)
      ensures BackingAt(sp.areas[..k + 1], p).Some? <==> BackingAt(sp.areas[..k], p).Some?
    {
      GoneAt(sp, k, start, end, p);
      PageEdge(p, a.start);
      PageEdge(p, a.end);
    }
  }

  /** After all areas, exactly the mapped pages of the range are gone. */
  lemma GoneAll(sp: Space, ph: Phys, start: nat, end: nat, table: map<nat, Entry>, ph': Phys)
    requires SpaceOk(sp, ph) && 1 <= end
    requires PartlyRemoved(sp, ph, Gone(sp, |sp.areas|, start, end), table, ph')
    ensures table == sp.table - PageSpan(start, end)
    ensures ph' == ph.(free := ph.free + Frames(sp, PageSpan(start, end)))
  {
    assert sp.areas[..|sp.areas|] == sp.areas;
    var gone := Gone(sp, |sp.areas|, start, end);
    assert forall p: nat :: p in gone <==> p in sp.table && p in PageSpan(start, end);
    assert Frames(sp, gone) == Frames(sp, PageSpan(start, end));
  }

  lemma AllBelowLimit(sp: Space, ph: Phys, p: nat)
    requires SpaceOk(sp, ph) && p in sp.table
    ensures InSpan(p, 0, ADDRESS_LIMIT)
  {
    hide EntryOk, OwnsPage;
    var i := MemberOfBacking(sp.areas, p);
    assert WellFormedArea(sp.areas[i]);
  }
}
