/**
 One address space over physical memory: when its areas, table and frames agree, and what each kernel
 operation does to it, as a relation between the states before and after. `picks` names the frame
 that the allocator handed out for each page that needed one.
 */
module AddressSpaces {
  import opened Machine
  import opened Paging
  import opened Areas

  /** Physical memory: every frame has contents, and some frames are free. */
  datatype Phys = Phys(free: set<nat>, mem: map<nat, PageData>)

  datatype Space = Space(areas: seq<MemoryArea>, table: map<nat, Entry>)

  // ---------------------------------------------------------------- one address space

  /** Page `p` of the space points to a frame that the space owns. */
  predicate OwnsPage(sp: Space, p: nat) {
    && p in sp.table
    && BackingAt(sp.areas, p).Some?
    && Owns(BackingAt(sp.areas, p).value.handler, sp.table[p])
  }

  predicate EntryOk(b: Backing, p: nat, e: Entry, ph: Phys) {
    && e.user == b.attr.user && e.writable == !b.attr.readonly && e.execute == b.attr.execute && e.mmio == b.attr.mmio
    && (b.handler.Linear? ==> e.present && e.target == LinearTarget(p, b.handler.offset))
    && (b.handler.ByFrame? ==> e.present)
    && (Owns(b.handler, e) ==> e.target in ph.mem && e.target !in ph.free)
    && (b.handler.File? && b.attr.readonly && e.present ==>
          e.target in ph.mem && ph.mem[e.target] == FaultPage(b.handler, p))
  }

  /** Whether a fork takes a frame for this page: it owns one whose bytes a fault would not bring back. */
  predicate TakesFrame(b: Backing, e: Entry) {
    Owns(b.handler, e) && !(b.handler.File? && b.attr.readonly)
  }

  /**
   The areas are sorted, aligned and disjoint; the table has an entry exactly for their pages, with
   the area's permissions; and no two pages share an owned frame.
   */
  ghost predicate SpaceOk(sp: Space, ph: Phys) {
    && WellFormed(sp.areas)
    && (forall p: nat :: p in sp.table <==> BackingAt(sp.areas, p).Some?)
    && (forall p: nat :: p in sp.table ==> EntryOk(BackingAt(sp.areas, p).value, p, sp.table[p], ph))
    && (forall p: nat, q: nat :: OwnsPage(sp, p) && OwnsPage(sp, q) && sp.table[p].target == sp.table[q].target ==> p == q)
  }

  /** The frames behind the owned pages among `pages`. */
  function Frames(sp: Space, pages: set<nat>): set<nat> {
    set p | p in pages && OwnsPage(sp, p) :: sp.table[p].target
  }

  predicate ValidPicks(picks: map<nat, nat>, free: set<nat>) {
    && picks.Values <= free
    && (forall p, q :: p in picks && q in picks && picks[p] == picks[q] ==> p == q)
  }

  function Pick(picks: map<nat, nat>, p: nat): nat {
    if p in picks then picks[p] else 0
  }

  /** The entries that mapping `pages` with one backing creates. */
  function MapEntries(b: Backing, pages: set<nat>, picks: map<nat, nat>): map<nat, Entry> {
    map p | p in pages :: MapEntry(b, p, Pick(picks, p))
  }

  // ---------------------------------------------------------------- what each operation does to it

  /** `push`: the area goes in at its sorted place and each of its pages is mapped by its handler. */
  ghost predicate Pushed(sp: Space, ph: Phys, a: MemoryArea, picks: map<nat, nat>, sp': Space, ph': Phys) {
    && WellFormed(sp.areas) && WellFormedArea(a) && TestFree(sp.areas, a.start, a.end)
    && ValidPicks(picks, ph.free)
    && picks.Keys == (if a.handler.ByFrame? then PageSpan(a.start, a.end) else {})
    && sp'.areas == Insert(sp.areas, a)
    && sp'.table == sp.table + MapEntries(BackingOf(a), PageSpan(a.start, a.end), picks)
    && ph' == ph.(free := ph.free - picks.Values)
  }

  /** `pop`, `pop_with_split`, `clear`: exactly the given pages go, and their frames are freed. */
  ghost predicate Removed(sp: Space, ph: Phys, pages: set<nat>, sp': Space, ph': Phys) {
    && WellFormed(sp'.areas)
    && (forall p: nat :: BackingAt(sp'.areas, p) == if p in pages then None else BackingAt(sp.areas, p))
    && sp'.table == sp.table - pages
    && ph' == ph.(free := ph.free + Frames(sp, pages))
  }

  /** A fault that is handled: the page gets `frame`, filled with the bytes it was standing for. */
  ghost predicate Faulted(sp: Space, ph: Phys, p: nat, frame: nat, sp': Space, ph': Phys) {
    && p in sp.table && !sp.table[p].present
    && BackingAt(sp.areas, p).Some? && Lazy(BackingAt(sp.areas, p).value.handler)
    && frame in ph.free
    && sp' == sp.(table := sp.table[p := sp.table[p].(target := frame, present := true)])
    && ph' == Phys(ph.free - {frame}, ph.mem[frame := FaultPage(BackingAt(sp.areas, p).value.handler, p)])
  }

  ghost predicate CopiesPage(sp: Space, p: nat) {
    p in sp.table && BackingAt(sp.areas, p).Some? && Copies(BackingAt(sp.areas, p).value, sp.table[p])
  }

  /** `clone`: the copy has the same areas; pages that hold data get a frame with a copy of it. */
  ghost predicate Forked(sp: Space, ph: Phys, picks: map<nat, nat>, sp': Space, ph': Phys) {
    && sp'.areas == sp.areas && sp'.table.Keys == sp.table.Keys
    && ValidPicks(picks, ph.free)
    && (forall p: nat :: p in picks <==> CopiesPage(sp, p))
    && (forall p: nat :: p in sp.table && BackingAt(sp.areas, p).Some? ==>
          sp'.table[p] == CloneEntry(BackingAt(sp.areas, p).value, sp.table[p], p, Pick(picks, p)))
    && ph'.free == ph.free - picks.Values && ph'.mem.Keys == ph.mem.Keys
    && (forall f: nat :: f in ph.mem && f !in picks.Values ==> ph'.mem[f] == ph.mem[f])
    && (forall p: nat :: p in picks ==>
          sp.table[p].target in ph.mem && picks[p] in ph.mem && ph'.mem[picks[p]] == ph.mem[sp.table[p].target])
  }

  /** A store that the entry permits, to a page that is not a window on physical memory. */
  ghost predicate Stored(sp: Space, ph: Phys, addr: nat, b: byte, ph': Phys) {
    var p := PageOf(addr);
    && OwnsPage(sp, p) && sp.table[p].writable && sp.table[p].target in ph.mem
    && var f := sp.table[p].target;
       ph' == ph.(mem := ph.mem[f := ph.mem[f][addr % PAGE_SIZE := b]])
  }

  // ---------------------------------------------------------------- each operation keeps it

  /** A space stays sound while the frames it owns stay allocated and keep their contents. */
  lemma SpaceOkFrame(sp: Space, ph: Phys, ph': Phys)
    requires SpaceOk(sp, ph)
    requires forall p: nat :: OwnsPage(sp, p) ==>
               var f := sp.table[p].target; f in ph'.mem && f !in ph'.free && ph'.mem[f] == ph.mem[f]
    ensures SpaceOk(sp, ph')
  {
    forall p: nat | p in sp.table
      ensures EntryOk(BackingAt(sp.areas, p).value, p, sp.table[p], ph')
    {
      assert EntryOk(BackingAt(sp.areas, p).value, p, sp.table[p], ph);
      assert OwnsPage(sp, p) <==> Owns(BackingAt(sp.areas, p).value.handler, sp.table[p]);
    }
  }

  /** The effect of `push` on page `p`: a page of the area is new, any other is as before. */
  predicate AddedAt(sp: Space, a: MemoryArea, picks: map<nat, nat>, sp': Space, p: nat) {
    && (p in picks <==> a.handler.ByFrame? && InSpan(p, a.start, a.end))
    && if InSpan(p, a.start, a.end) then
         && BackingAt(sp'.areas, p) == Some(BackingOf(a))
         && p !in sp.table && p in sp'.table
         && sp'.table[p] == MapEntry(BackingOf(a), p, Pick(picks, p))
       else
         && BackingAt(sp'.areas, p) == BackingAt(sp.areas, p)
         && (p in sp'.table <==> p in sp.table)
         && (p in sp.table ==> sp'.table[p] == sp.table[p])
  }

  ghost predicate Added(sp: Space, a: MemoryArea, picks: map<nat, nat>, sp': Space) {
    forall p: nat :: AddedAt(sp, a, picks, sp', p)
  }

  lemma PushedIsAdded(sp: Space, ph: Phys, a: MemoryArea, picks: map<nat, nat>, sp': Space, ph': Phys)
    requires SpaceOk(sp, ph) && Pushed(sp, ph, a, picks, sp', ph')
    ensures Added(sp, a, picks, sp')
  {
    hide SpaceOk, Pushed, AddedAt;
    forall p: nat
      ensures AddedAt(sp, a, picks, sp', p)
    {
      PushedAddsAt(sp, ph, a, picks, sp', ph', p);
    }
  }

  lemma PushedAddsAt(sp: Space, ph: Phys, a: MemoryArea, picks: map<nat, nat>, sp': Space, ph': Phys, p: nat)
    requires SpaceOk(sp, ph) && Pushed(sp, ph, a, picks, sp', ph')
    ensures AddedAt(sp, a, picks, sp', p)
  {
    hide MapEntry, BackingAt, WellFormed, TestFree, Insert, EntryOk, ValidPicks, OwnsPage, InSpan, Pick, MapEntries;
    FreeIsUnbacked(sp.areas, a.start, a.end);
    InsertAddsPages(sp.areas, a, p);
    MapEntriesAt(BackingOf(a), PageSpan(a.start, a.end), picks, p);
  }

  lemma MapEntriesAt(b: Backing, pages: set<nat>, picks: map<nat, nat>, p: nat)
    ensures p in MapEntries(b, pages, picks) <==> p in pages
    ensures p in pages ==> MapEntries(b, pages, picks)[p] == MapEntry(b, p, Pick(picks, p))
  {
  }

  lemma AddedOwner(sp: Space, a: MemoryArea, picks: map<nat, nat>, sp': Space, p: nat)
    requires AddedAt(sp, a, picks, sp', p)
    ensures OwnsPage(sp', p) <==> OwnsPage(sp, p) || p in picks
    ensures OwnsPage(sp, p) ==> p !in picks && sp'.table[p] == sp.table[p]
    ensures p in picks ==> p in sp'.table && sp'.table[p].target == picks[p]
  {
  }

  lemma OwnedIsAllocated(sp: Space, ph: Phys, p: nat)
    requires SpaceOk(sp, ph) && OwnsPage(sp, p)
    ensures sp.table[p].target in ph.mem && sp.table[p].target !in ph.free
  {
    assert EntryOk(BackingAt(sp.areas, p).value, p, sp.table[p], ph);
  }

  lemma AddedInjective(sp: Space, ph: Phys, a: MemoryArea, picks: map<nat, nat>, sp': Space, p: nat, q: nat)
    requires SpaceOk(sp, ph) && AddedAt(sp, a, picks, sp', p) && AddedAt(sp, a, picks, sp', q)
    requires ValidPicks(picks, ph.free)
    requires OwnsPage(sp', p) && OwnsPage(sp', q) && sp'.table[p].target == sp'.table[q].target
    ensures p == q
  {
    hide BackingAt, WellFormed, MapEntry, InSpan, EntryOk;
    AddedOwner(sp, a, picks, sp', p);
    AddedOwner(sp, a, picks, sp', q);
    if OwnsPage(sp, p) {
      OwnedIsAllocated(sp, ph, p);
    }
    if OwnsPage(sp, q) {
      OwnedIsAllocated(sp, ph, q);
    }
  }

  lemma AddedEntry(sp: Space, ph: Phys, a: MemoryArea, picks: map<nat, nat>, sp': Space, ph': Phys, p: nat)
    requires ph.free <= ph.mem.Keys && ValidPicks(picks, ph.free) && ph' == ph.(free := ph.free - picks.Values)
    requires SpaceOk(sp, ph) && AddedAt(sp, a, picks, sp', p)
    ensures p in sp'.table <==> BackingAt(sp'.areas, p).Some?
    ensures p in sp'.table ==> EntryOk(BackingAt(sp'.areas, p).value, p, sp'.table[p], ph')
  {
    hide FaultPage, LinearTarget, BackingAt, WellFormed, InSpan;
    if p in sp.table {
      assert EntryOk(BackingAt(sp.areas, p).value, p, sp.table[p], ph);
    }
  }

  lemma AddedOk(sp: Space, ph: Phys, a: MemoryArea, picks: map<nat, nat>, sp': Space, ph': Phys)
    requires ph.free <= ph.mem.Keys && ValidPicks(picks, ph.free) && ph' == ph.(free := ph.free - picks.Values)
    requires SpaceOk(sp, ph) && WellFormed(sp'.areas) && Added(sp, a, picks, sp')
    ensures SpaceOk(sp', ph')
  {
    hide EntryOk, BackingAt, WellFormed, AddedAt, ValidPicks;
    forall p: nat
      ensures p in sp'.table <==> BackingAt(sp'.areas, p).Some?
      ensures p in sp'.table ==> EntryOk(BackingAt(sp'.areas, p).value, p, sp'.table[p], ph')
    {
      AddedEntry(sp, ph, a, picks, sp', ph', p);
    }
    forall p: nat, q: nat | OwnsPage(sp', p) && OwnsPage(sp', q) && sp'.table[p].target == sp'.table[q].target
      ensures p == q
    {
      AddedInjective(sp, ph, a, picks, sp', p, q);
    }
  }

  lemma PushedOk(sp: Space, ph: Phys, a: MemoryArea, picks: map<nat, nat>, sp': Space, ph': Phys)
    requires ph.free <= ph.mem.Keys
    requires SpaceOk(sp, ph) && Pushed(sp, ph, a, picks, sp', ph')
    ensures SpaceOk(sp', ph') && Added(sp, a, picks, sp')
  {
    InsertKeepsOrder(sp.areas, a);
    PushedIsAdded(sp, ph, a, picks, sp', ph');
    AddedOk(sp, ph, a, picks, sp', ph');
  }

  /** The frame of a page outside `pages` is not among the frames of `pages`. */
  lemma KeptFrame(sp: Space, ph: Phys, pages: set<nat>, p: nat)
    requires SpaceOk(sp, ph) && OwnsPage(sp, p) && p !in pages
    ensures sp.table[p].target !in Frames(sp, pages)
  {
    hide EntryOk, BackingAt, WellFormed;
    assert forall q :: q in pages && OwnsPage(sp, q) ==> sp.table[q].target != sp.table[p].target;
  }

  lemma RemovedOk(sp: Space, ph: Phys, pages: set<nat>, sp': Space, ph': Phys)
    requires SpaceOk(sp, ph) && Removed(sp, ph, pages, sp', ph')
    ensures SpaceOk(sp', ph')
    ensures forall p: nat :: OwnsPage(sp', p) <==> OwnsPage(sp, p) && p !in pages
  {
    hide FaultPage, LinearTarget, BackingAt, WellFormed;
    forall p: nat | p in sp'.table
      ensures EntryOk(BackingAt(sp'.areas, p).value, p, sp'.table[p], ph')
    {
      assert EntryOk(BackingAt(sp.areas, p).value, p, sp.table[p], ph);
      if OwnsPage(sp, p) {
        KeptFrame(sp, ph, pages, p);
      }
    }
  }

  /** A fault changes the entry of its own page only, and fills the frame with what it stood for. */
  lemma FaultedEntry(sp: Space, ph: Phys, p: nat, frame: nat, sp': Space, ph': Phys, q: nat)
    requires ph.free <= ph.mem.Keys && SpaceOk(sp, ph) && Faulted(sp, ph, p, frame, sp', ph')
    ensures OwnsPage(sp', q) <==> OwnsPage(sp, q) || q == p
    ensures q in sp'.table ==> EntryOk(BackingAt(sp'.areas, q).value, q, sp'.table[q], ph')
    ensures OwnsPage(sp, q) ==> sp'.table[q] == sp.table[q] && sp.table[q].target !in ph.free
  {
    hide FaultPage, LinearTarget, BackingAt, WellFormed;
    if q in sp.table {
      assert EntryOk(BackingAt(sp.areas, q).value, q, sp.table[q], ph);
    }
  }

  lemma FaultedOk(sp: Space, ph: Phys, p: nat, frame: nat, sp': Space, ph': Phys)
    requires ph.free <= ph.mem.Keys
    requires SpaceOk(sp, ph) && Faulted(sp, ph, p, frame, sp', ph')
    ensures SpaceOk(sp', ph')
    ensures forall q: nat :: OwnsPage(sp', q) <==> OwnsPage(sp, q) || q == p
  {
    hide FaultPage, EntryOk, BackingAt, WellFormed;
    forall q: nat
      ensures OwnsPage(sp', q) <==> OwnsPage(sp, q) || q == p
      ensures q in sp'.table ==> EntryOk(BackingAt(sp'.areas, q).value, q, sp'.table[q], ph')
      ensures OwnsPage(sp, q) ==> sp'.table[q] == sp.table[q] && sp.table[q].target !in ph.free
    {
      FaultedEntry(sp, ph, p, frame, sp', ph', q);
    }
  }

  lemma ForkedEntry(sp: Space, ph: Phys, picks: map<nat, nat>, sp': Space, ph': Phys, p: nat)
    requires ph.free <= ph.mem.Keys && SpaceOk(sp, ph) && Forked(sp, ph, picks, sp', ph')
    ensures OwnsPage(sp', p) <==> p in picks
    ensures p in picks ==> p in sp'.table && sp'.table[p].target == picks[p]
    ensures p in sp'.table ==> EntryOk(BackingAt(sp'.areas, p).value, p, sp'.table[p], ph')
    ensures p in picks <==>
            p in sp.table && BackingAt(sp.areas, p).Some? && TakesFrame(BackingAt(sp.areas, p).value, sp.table[p])
  {
    hide FaultPage, LinearTarget, BackingAt, WellFormed;
    if p in sp.table {
      assert EntryOk(BackingAt(sp.areas, p).value, p, sp.table[p], ph);
    }
  }

  lemma ForkedOk(sp: Space, ph: Phys, picks: map<nat, nat>, sp': Space, ph': Phys)
    requires ph.free <= ph.mem.Keys
    requires SpaceOk(sp, ph) && Forked(sp, ph, picks, sp', ph')
    ensures SpaceOk(sp, ph') && SpaceOk(sp', ph')
    ensures forall p: nat :: OwnsPage(sp', p) <==> p in picks
    ensures forall p: nat :: p in picks ==> sp'.table[p].target == picks[p]
    ensures forall p: nat :: p in picks <==>
              p in sp.table && BackingAt(sp.areas, p).Some? && TakesFrame(BackingAt(sp.areas, p).value, sp.table[p])
  {
    hide EntryOk, BackingAt, WellFormed, CloneEntry;
    forall p: nat | OwnsPage(sp, p)
      ensures sp.table[p].target in ph.mem && sp.table[p].target !in ph.free
    {
      OwnedIsAllocated(sp, ph, p);
    }
    SpaceOkFrame(sp, ph, ph');
    forall p: nat
      ensures OwnsPage(sp', p) <==> p in picks
      ensures p in picks <==>
              p in sp.table && BackingAt(sp.areas, p).Some? && TakesFrame(BackingAt(sp.areas, p).value, sp.table[p])
      ensures p in picks ==> p in sp'.table && sp'.table[p].target == picks[p]
      ensures p in sp'.table ==> EntryOk(BackingAt(sp'.areas, p).value, p, sp'.table[p], ph')
    {
      ForkedEntry(sp, ph, picks, sp', ph', p);
    }
  }

  lemma StoredOk(sp: Space, ph: Phys, addr: nat, b: byte, ph': Phys)
    requires SpaceOk(sp, ph) && Stored(sp, ph, addr, b, ph')
    ensures SpaceOk(sp, ph')
  {
    var p := PageOf(addr);
    forall q: nat | q in sp.table
      ensures EntryOk(BackingAt(sp.areas, q).value, q, sp.table[q], ph')
    {
      assert EntryOk(BackingAt(sp.areas, q).value, q, sp.table[q], ph);
      if OwnsPage(sp, q) && sp.table[q].target == sp.table[p].target {
        assert q == p;
      }
    }
  }
}
