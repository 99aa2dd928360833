/**
 The reference memory: a space is a map from pages to bytes. Creating, forking and cutting spaces are
 plain map operations, a store changes one byte of one page of one space, and a fault does nothing.
 */
module FlatMemory {
  import opened Machine
  import opened Paging
  import opened Areas
  import opened AddressSpaces
  import opened DemandPaging

  /** What a program sees in a page: bytes of its own, or a window on physical memory. */
  datatype View = Window(target: nat) | Bytes(data: PageData)

  datatype FlatPage = FlatPage(attr: MemoryAttr, view: View)

  type FlatSpace = map<nat, FlatPage>

  type Flat = map<nat, FlatSpace>

  /** `target` is the address of page `p` plus `offset`, in 64 bits. */
  predicate IsShifted(target: nat, p: nat, offset: int) {
    target < TWO_64 && (target - p * PAGE_SIZE - offset) % TWO_64 == 0
  }

  /** A new page starts as its policy says; an eagerly mapped frame is not cleared. */
  predicate StartsAs(page: FlatPage, b: Backing, p: nat) {
    && page.attr == b.attr
    && match b.handler
       case Linear(offset) => page.view.Window? && IsShifted(page.view.target, p, offset)
       case ByFrame => page.view.Bytes?
       case Delay => page.view == Bytes(ZeroPage())
       case File(_, _, _, _) => page.view == Bytes(FaultPage(b.handler, p))
  }

  function StoreTo(s: FlatSpace, p: nat, i: nat, value: byte): FlatSpace
    requires p in s && s[p].view.Bytes? && i < PAGE_SIZE
  {
    s[p := s[p].(view := Bytes(s[p].view.data[i := value]))]
  }

  /** The only space whose contents a step can change. */
  function Touched(step: Step): nat {
    if step.Fork? then step.child else step.id
  }

  /** At most the space `id` is new, gone or different. */
  ghost predicate OnlyTouches(f: Flat, id: nat, f': Flat) {
    && (forall k: nat :: k != id ==> (k in f' <==> k in f))
    && (forall k: nat :: k in f && k != id ==> f'[k] == f[k])
  }

  ghost predicate FlatNext(f: Flat, step: Step, f': Flat) {
    && OnlyTouches(f, Touched(step), f')
    && match step
       case Create(id) => id !in f && id in f' && f'[id] == map[]
       case Remove(id, pages) => id in f && id in f' && f'[id] == f[id] - pages
       case Fault(id, _, _) => id in f && id in f' && f'[id] == f[id]
       case Fork(id, child, _) => id in f && child !in f && child in f' && f'[child] == f[id]
       case Store(id, addr, value) => id in f && id in f' && FlatStored(f[id], addr, value, f'[id])
       case Destroy(id) => id in f && id !in f'
       case Push(id, a, _) => id in f && id in f' && FlatPushed(f[id], a, f'[id])
  }

  ghost predicate FlatStored(s: FlatSpace, addr: nat, value: byte, s': FlatSpace) {
    var p: nat := PageOf(addr);
    && p in s && s[p].view.Bytes? && !s[p].attr.readonly
    && s' == StoreTo(s, p, addr % PAGE_SIZE, value)
  }

  ghost predicate FlatPushed(s: FlatSpace, a: MemoryArea, s': FlatSpace) {
    && 1 <= a.end && s.Keys !! PageSpan(a.start, a.end) && s'.Keys == s.Keys + PageSpan(a.start, a.end)
    && (forall p: nat :: p in s ==> s'[p] == s[p])
    && (forall p: nat :: p in PageSpan(a.start, a.end) ==> StartsAs(s'[p], BackingOf(a), p))
  }

  // ---------------------------------------------------------------- what the kernel state stands for

  function ViewOf(sp: Space, ph: Phys, p: nat): View
    requires p in sp.table && BackingAt(sp.areas, p).Some?
    requires OwnsPage(sp, p) ==> sp.table[p].target in ph.mem
  {
    var h := BackingAt(sp.areas, p).value.handler;
    var e := sp.table[p];
    if h.Linear? then Window(e.target)
    else if e.present then Bytes(ph.mem[e.target])
    else if Lazy(h) then Bytes(FaultPage(h, p))
    else Bytes(ZeroPage())
  }

  ghost predicate Readable(sp: Space, ph: Phys) {
    forall p: nat :: p in sp.table ==> BackingAt(sp.areas, p).Some? && (OwnsPage(sp, p) ==> sp.table[p].target in ph.mem)
  }

  /** The attributes that the hardware goes by. */
  function AttrOf(e: Entry): MemoryAttr {
    MemoryAttr(e.user, !e.writable, e.execute, e.mmio)
  }

  function FlatPageOf(sp: Space, ph: Phys, p: nat): FlatPage
    requires p in sp.table && BackingAt(sp.areas, p).Some?
    requires OwnsPage(sp, p) ==> sp.table[p].target in ph.mem
  {
    FlatPage(AttrOf(sp.table[p]), ViewOf(sp, ph, p))
  }

  ghost function Flatten(sp: Space, ph: Phys): FlatSpace
    requires Readable(sp, ph)
  {
    map p | p in sp.table :: FlatPageOf(sp, ph, p)
  }

  lemma OkIsReadable(sp: Space, ph: Phys)
    requires SpaceOk(sp, ph)
    ensures Readable(sp, ph)
  {
    forall p: nat | p in sp.table
      ensures BackingAt(sp.areas, p).Some? && (OwnsPage(sp, p) ==> sp.table[p].target in ph.mem)
    {
      assert EntryOk(BackingAt(sp.areas, p).value, p, sp.table[p], ph);
    }
  }

  ghost predicate AllReadable(w: World) {
    forall id: nat :: id in w.spaces ==> Readable(w.spaces[id], w.phys)
  }

  lemma InvIsReadable(w: World)
    requires Inv(w)
    ensures AllReadable(w)
  {
    forall id: nat | id in w.spaces
      ensures Readable(w.spaces[id], w.phys)
    {
      OkIsReadable(w.spaces[id], w.phys);
    }
  }

  ghost function Abstract(w: World): Flat
    requires AllReadable(w)
  {
    map id | id in w.spaces :: Flatten(w.spaces[id], w.phys)
  }

  /** A space keeps its flat contents while the frames it owns keep theirs. */
  lemma FlattenFrame(sp: Space, ph: Phys, ph': Phys)
    requires Readable(sp, ph)
    requires forall p: nat :: OwnsPage(sp, p) ==>
               var f := sp.table[p].target; f in ph'.mem && ph'.mem[f] == ph.mem[f]
    ensures Readable(sp, ph') && Flatten(sp, ph') == Flatten(sp, ph)
  {
    forall p: nat | p in sp.table
      ensures FlatPageOf(sp, ph', p) == FlatPageOf(sp, ph, p)
    {
      assert OwnsPage(sp, p) <==> Owns(BackingAt(sp.areas, p).value.handler, sp.table[p]);
    }
  }

  /** A step that leaves the frames of other spaces alone leaves their flat contents alone. */
  lemma OthersFlat(w: World, w': World, id: nat)
    requires AllReadable(w) && AllReadable(w')
    requires forall k: nat :: k != id ==> (k in w'.spaces <==> k in w.spaces)
    requires forall k: nat :: k in w'.spaces && k != id ==> w'.spaces[k] == w.spaces[k]
    requires forall k: nat, p: nat :: Holds(w, k, p) && k != id ==>
               var f := FrameOf(w, k, p);
               f in w'.phys.mem && f in w.phys.mem && w'.phys.mem[f] == w.phys.mem[f]
    ensures forall k: nat :: k in w.spaces && k != id ==> Abstract(w')[k] == Abstract(w)[k]
  {
    forall k: nat | k in w.spaces && k != id
      ensures Abstract(w')[k] == Abstract(w)[k]
    {
      assert forall p: nat :: OwnsPage(w.spaces[k], p) ==> Holds(w, k, p);
      FlattenFrame(w.spaces[k], w.phys, w'.phys);
    }
  }

  lemma HeldFrames(w: World)
    requires Inv(w)
    ensures forall k: nat, p: nat :: Holds(w, k, p) ==> FrameOf(w, k, p) in w.phys.mem && FrameOf(w, k, p) !in w.phys.free
  {
    forall k: nat, p: nat | Holds(w, k, p)
      ensures FrameOf(w, k, p) in w.phys.mem && FrameOf(w, k, p) !in w.phys.free
    {
      HeldIsAllocated(w, k, p);
    }
  }

  // ---------------------------------------------------------------- one space at a time

  lemma DelayStartsZero(p: nat)
    ensures FaultPage(Delay, p) == ZeroPage()
  {
  }

  lemma AddedFlatPage(sp: Space, ph: Phys, a: MemoryArea, picks: map<nat, nat>, sp': Space, ph': Phys, p: nat)
    requires Readable(sp, ph) && Readable(sp', ph') && AddedAt(sp, a, picks, sp', p) && ph'.mem == ph.mem
    ensures p in sp'.table <==> p in sp.table || InSpan(p, a.start, a.end)
    ensures p in sp.table ==> FlatPageOf(sp', ph', p) == FlatPageOf(sp, ph, p) && !InSpan(p, a.start, a.end)
    ensures InSpan(p, a.start, a.end) ==> StartsAs(FlatPageOf(sp', ph', p), BackingOf(a), p)
  {
    hide FaultPage, ZeroPage, LinearTarget, InSpan, BackingAt;
    DelayStartsZero(p);
  }

  lemma AddedFlat(sp: Space, ph: Phys, a: MemoryArea, picks: map<nat, nat>, sp': Space, ph': Phys)
    requires Readable(sp, ph) && Readable(sp', ph') && Added(sp, a, picks, sp') && 1 <= a.end && ph'.mem == ph.mem
    ensures Flatten(sp, ph).Keys !! PageSpan(a.start, a.end)
    ensures Flatten(sp', ph').Keys == Flatten(sp, ph).Keys + PageSpan(a.start, a.end)
    ensures forall p: nat :: p in Flatten(sp, ph) ==> Flatten(sp', ph')[p] == Flatten(sp, ph)[p]
    ensures forall p: nat :: p in PageSpan(a.start, a.end) ==> StartsAs(Flatten(sp', ph')[p], BackingOf(a), p)
  {
    hide AddedAt, FlatPageOf, StartsAs, InSpan, PageSpan, OwnsPage, BackingAt;
    forall p: nat
      ensures p in sp'.table <==> p in sp.table || InSpan(p, a.start, a.end)
      ensures p in sp.table ==> FlatPageOf(sp', ph', p) == FlatPageOf(sp, ph, p) && !InSpan(p, a.start, a.end)
      ensures InSpan(p, a.start, a.end) ==> StartsAs(FlatPageOf(sp', ph', p), BackingOf(a), p)
    {
      AddedFlatPage(sp, ph, a, picks, sp', ph', p);
    }
  }

  lemma RemovedFlat(sp: Space, ph: Phys, pages: set<nat>, sp': Space, ph': Phys)
    requires Readable(sp, ph) && Readable(sp', ph') && Removed(sp, ph, pages, sp', ph')
    ensures Flatten(sp', ph') == Flatten(sp, ph) - pages
  {
  }

  lemma FaultedFlat(sp: Space, ph: Phys, p: nat, frame: nat, sp': Space, ph': Phys)
    requires SpaceOk(sp, ph) && Readable(sp, ph) && Readable(sp', ph') && Faulted(sp, ph, p, frame, sp', ph')
    ensures Flatten(sp', ph') == Flatten(sp, ph)
  {
    hide FaultPage, ZeroPage, LinearTarget, BackingAt;
    forall q: nat | q in sp.table
      ensures FlatPageOf(sp', ph', q) == FlatPageOf(sp, ph, q)
    {
      if OwnsPage(sp, q) {
        OwnedIsAllocated(sp, ph, q);
      }
    }
  }

  /** The copy shows exactly the contents of the original, page by page. */
  lemma ForkedFlat(sp: Space, ph: Phys, picks: map<nat, nat>, sp': Space, ph': Phys)
    requires SpaceOk(sp, ph) && Readable(sp, ph) && Readable(sp', ph') && Forked(sp, ph, picks, sp', ph')
    ensures Flatten(sp', ph') == Flatten(sp, ph)
  {
    hide SpaceOk, FlatPageOf;
    forall p: nat | p in sp.table
      ensures FlatPageOf(sp', ph', p) == FlatPageOf(sp, ph, p)
    {
      ForkedFlatPage(sp, ph, picks, sp', ph', p);
    }
  }

  lemma ForkedFlatPage(sp: Space, ph: Phys, picks: map<nat, nat>, sp': Space, ph': Phys, p: nat)
    requires SpaceOk(sp, ph) && Readable(sp, ph) && Readable(sp', ph') && Forked(sp, ph, picks, sp', ph') && p in sp.table
    ensures FlatPageOf(sp', ph', p) == FlatPageOf(sp, ph, p)
  {
    hide FaultPage, ZeroPage, LinearTarget, BackingAt, WellFormed, ValidPicks;
    assert EntryOk(BackingAt(sp.areas, p).value, p, sp.table[p], ph);
    assert p in picks <==> CopiesPage(sp, p);
  }

  lemma StoredFlat(sp: Space, ph: Phys, addr: nat, b: byte, ph': Phys)
    requires SpaceOk(sp, ph) && Readable(sp, ph) && Readable(sp, ph') && Stored(sp, ph, addr, b, ph')
    ensures var p := PageOf(addr);
            && p in sp.table && FlatPageOf(sp, ph, p).view.Bytes? && !FlatPageOf(sp, ph, p).attr.readonly
            && Flatten(sp, ph') == StoreTo(Flatten(sp, ph), p, addr % PAGE_SIZE, b)
  {
    var p := PageOf(addr);
    assert EntryOk(BackingAt(sp.areas, p).value, p, sp.table[p], ph);
    forall q: nat | q in sp.table && q != p
      ensures FlatPageOf(sp, ph', q) == FlatPageOf(sp, ph, q)
    {
      if OwnsPage(sp, q) {
        assert sp.table[q].target != sp.table[p].target;
      }
    }
  }

  // ---------------------------------------------------------------- refinement

  /** A frame owned outside the touched space is neither handed out, freed nor written. */
  lemma StepFrame(w: World, step: Step, w': World, k: nat, p: nat)
    requires Inv(w) && Next(w, step, w') && Holds(w, k, p) && k != Touched(step)
    ensures var f := FrameOf(w, k, p);
            f in w'.phys.mem && f in w.phys.mem && w'.phys.mem[f] == w.phys.mem[f]
  {
    hide FaultPage, BackingAt;
    HeldIsAllocated(w, k, p);
    match step
    case Create(_) =>
    case Push(_, _, _) =>
    case Remove(_, _) =>
    case Fault(_, _, _) =>
    case Fork(_, _, _) =>
    case Store(id, addr, _) => DistinctFrames(w, id, PageOf(addr), k, p);
    case Destroy(_) =>
  }

  lemma DistinctFrames(w: World, id: nat, p: nat, k: nat, q: nat)
    requires NoSharing(w) && Holds(w, id, p) && Holds(w, k, q) && id != k
    ensures FrameOf(w, id, p) != FrameOf(w, k, q)
  {
  }

  lemma StepDomains(w: World, step: Step, w': World)
    requires Next(w, step, w')
    ensures forall k: nat :: k != Touched(step) ==> (k in w'.spaces <==> k in w.spaces)
    ensures forall k: nat :: k in w'.spaces && k != Touched(step) ==> w'.spaces[k] == w.spaces[k]
  {
    hide Pushed, Removed, Faulted, Forked, Stored;
  }

  /** A step changes the flat contents of no space but the touched one. */
  lemma StepKeepsOthers(w: World, step: Step, w': World)
    requires Inv(w) && Next(w, step, w') && AllReadable(w) && AllReadable(w')
    ensures forall k: nat :: k != Touched(step) ==> (k in w'.spaces <==> k in w.spaces)
    ensures forall k: nat :: k in w.spaces && k != Touched(step) ==> Abstract(w')[k] == Abstract(w)[k]
  {
    hide Inv, Next, Readable, OwnsPage;
    StepDomains(w, step, w');
    forall k: nat, p: nat | Holds(w, k, p) && k != Touched(step)
      ensures var f := FrameOf(w, k, p);
              f in w'.phys.mem && f in w.phys.mem && w'.phys.mem[f] == w.phys.mem[f]
    {
      StepFrame(w, step, w', k, p);
    }
    OthersFlat(w, w', Touched(step));
  }

  lemma StepTouches(w: World, step: Step, w': World)
    requires Inv(w) && Next(w, step, w') && AllReadable(w) && AllReadable(w')
    requires OnlyTouches(Abstract(w), Touched(step), Abstract(w'))
    ensures FlatNext(Abstract(w), step, Abstract(w'))
  {
    match step
    case Create(id) =>
    case Destroy(id) =>
    case Push(id, a, picks) =>
      PushedIsAdded(w.spaces[id], w.phys, a, picks, w'.spaces[id], w'.phys);
      AddedFlat(w.spaces[id], w.phys, a, picks, w'.spaces[id], w'.phys);
    case Remove(id, pages) => RemovedFlat(w.spaces[id], w.phys, pages, w'.spaces[id], w'.phys);
    case Fault(id, p, frame) => FaultedFlat(w.spaces[id], w.phys, p, frame, w'.spaces[id], w'.phys);
    case Fork(id, child, picks) => ForkedFlat(w.spaces[id], w.phys, picks, w'.spaces[child], w'.phys);
    case Store(id, addr, value) => StoredFlat(w.spaces[id], w.phys, addr, value, w'.phys);
  }

  /** Every step of the paged kernel is the same step of the flat memory. */
  lemma StepRefines(w: World, step: Step, w': World)
    requires Inv(w) && Next(w, step, w')
    ensures Inv(w') && AllReadable(w) && AllReadable(w')
    ensures FlatNext(Abstract(w), step, Abstract(w'))
  {
    StepKeepsInv(w, step, w');
    InvIsReadable(w);
    InvIsReadable(w');
    StepKeepsOthers(w, step, w');
    StepTouches(w, step, w');
  }

  // ---------------------------------------------------------------- whole runs

  ghost predicate IsRun(ws: seq<World>, steps: seq<Step>) {
    && |ws| == |steps| + 1
    && Init(ws[0])
    && (forall i :: 0 <= i < |steps| ==> Next(ws[i], steps[i], ws[i + 1]))
  }

  lemma InitHasInv(w: World)
    requires Init(w)
    ensures Inv(w)
  {
  }

  /**
   In every reachable state the areas, tables and allocator agree: areas sorted and disjoint, an
   entry exactly for each page of an area, and a frame is allocated exactly when one page owns it.
   */
  lemma {:induction false} RunKeepsInv(ws: seq<World>, steps: seq<Step>, i: nat)
    requires IsRun(ws, steps) && i < |ws|
    ensures Inv(ws[i])
    ensures forall f: nat :: f in ws[i].phys.mem ==> (f !in ws[i].phys.free <==> HasOwner(ws[i], f))
  {
    hide Next, Inv;
    if i == 0 {
      InitHasInv(ws[0]);
    } else {
      RunKeepsInv(ws, steps, i - 1);
      StepKeepsInv(ws[i - 1], steps[i - 1], ws[i]);
    }
    AllocatedIffOwned(ws[i]);
  }

  lemma AllocatedIffOwned(w: World)
    requires Inv(w)
    ensures forall f: nat :: f in w.phys.mem ==> (f !in w.phys.free <==> HasOwner(w, f))
  {
    hide SpaceOk, OwnsPage;
    HeldFrames(w);
  }

  /** Every run of the paged kernel is, step by step, a run of the flat memory. */
  lemma RunRefines(ws: seq<World>, steps: seq<Step>, i: nat)
    requires IsRun(ws, steps) && i < |steps|
    ensures AllReadable(ws[i]) && AllReadable(ws[i + 1])
    ensures FlatNext(Abstract(ws[i]), steps[i], Abstract(ws[i + 1]))
  {
    RunKeepsInv(ws, steps, i);
    StepRefines(ws[i], steps[i], ws[i + 1]);
  }

  /**
   In every state of every run an address has an entry exactly if an area contains it, and then the
   entry says what the area says, to whom the page is open, for what, and as which kind of memory.
   */
  lemma RunPermissions(ws: seq<World>, steps: seq<Step>, i: nat, id: nat, addr: nat)
    requires IsRun(ws, steps) && i < |ws| && id in ws[i].spaces
    ensures var sp := ws[i].spaces[id];
            match FindArea(sp.areas, addr)
            case None => PageOf(addr) !in sp.table
            case Some(a) =>
              && PageOf(addr) in sp.table
              && var e := sp.table[PageOf(addr)];
                 && e.user == a.attr.user && e.writable == !a.attr.readonly
                 && e.execute == a.attr.execute && e.mmio == a.attr.mmio
                 && (a.handler.Linear? ==> e.present && IsShifted(e.target, PageOf(addr), a.handler.offset))
  {
    hide BackingAt, IsRun, WellFormed;
    RunKeepsInv(ws, steps, i);
    var sp := ws[i].spaces[id];
    assert SpaceOk(sp, ws[i].phys);
    FindAreaIsBacking(sp.areas, addr);
    if FindArea(sp.areas, addr).Some? {
      assert EntryOk(BackingAt(sp.areas, PageOf(addr)).value, PageOf(addr), sp.table[PageOf(addr)], ws[i].phys);
    }
  }

  /** Steps that do not touch a space never change what it sees, however many there are. */
  lemma {:induction false} Isolation(ws: seq<World>, steps: seq<Step>, i: nat, j: nat, id: nat)
    requires IsRun(ws, steps) && i <= j < |ws| && id in ws[i].spaces
    requires forall k :: i <= k < j ==> Touched(steps[k]) != id
    ensures AllReadable(ws[i]) && AllReadable(ws[j])
    ensures id in ws[j].spaces && Abstract(ws[j])[id] == Abstract(ws[i])[id]
  {
    hide Next, Inv, Abstract;
    RunKeepsInv(ws, steps, i);
    InvIsReadable(ws[i]);
    if i < j {
      Isolation(ws, steps, i, j - 1, id);
      RunKeepsInv(ws, steps, j - 1);
      RunKeepsInv(ws, steps, j);
      InvIsReadable(ws[j]);
      StepKeepsOthers(ws[j - 1], steps[j - 1], ws[j]);
    }
  }

  /** The fork itself: the child sees what the parent saw, and the parent still does. */
  lemma ForkStep(ws: seq<World>, steps: seq<Step>, i: nat)
    requires IsRun(ws, steps) && i < |steps| && steps[i].Fork?
    ensures AllReadable(ws[i]) && AllReadable(ws[i + 1])
    ensures steps[i].id in ws[i].spaces && steps[i].id in ws[i + 1].spaces && steps[i].child in ws[i + 1].spaces
    ensures Abstract(ws[i + 1])[steps[i].id] == Abstract(ws[i])[steps[i].id]
    ensures Abstract(ws[i + 1])[steps[i].child] == Abstract(ws[i])[steps[i].id]
  {
    hide Inv, Abstract, Forked, AllReadable, SpaceOk;
    RunRefines(ws, steps, i);
    AbstractKeys(ws[i]);
    AbstractKeys(ws[i + 1]);
  }

  lemma AbstractKeys(w: World)
    requires AllReadable(w)
    ensures Abstract(w).Keys == w.spaces.Keys
  {
  }

  /**
   Fork is faithful and separate: the child starts with exactly the contents of the parent, page by
   page, and from then on neither sees anything that only the other does.
   */
  lemma ForkFaithfulAndSeparate(ws: seq<World>, steps: seq<Step>, i: nat, j: nat)
    requires IsRun(ws, steps) && i < j < |ws| && steps[i].Fork?
    ensures AllReadable(ws[i]) && AllReadable(ws[j])
    ensures steps[i].id in ws[i].spaces
    ensures (forall k :: i < k < j ==> Touched(steps[k]) != steps[i].id) ==>
              steps[i].id in ws[j].spaces && Abstract(ws[j])[steps[i].id] == Abstract(ws[i])[steps[i].id]
    ensures (forall k :: i < k < j ==> Touched(steps[k]) != steps[i].child) ==>
              steps[i].child in ws[j].spaces && Abstract(ws[j])[steps[i].child] == Abstract(ws[i])[steps[i].id]
  {
    hide Inv, Abstract, AllReadable, Next, Touched;
    ForkStep(ws, steps, i);
    if forall k :: i < k < j ==> Touched(steps[k]) != steps[i].id {
      Isolation(ws, steps, i + 1, j, steps[i].id);
    }
    RunKeepsInv(ws, steps, j);
    InvIsReadable(ws[j]);
    if forall k :: i < k < j ==> Touched(steps[k]) != steps[i].child {
      Isolation(ws, steps, i + 1, j, steps[i].child);
    }
  }

  /**
   Demand paging hides nothing: whenever the flat memory permits a store, the kernel performs it, at
   once where the page is present and after one fault where it is not and a frame is free.
   */
  lemma StoreIsServed(w: World, id: nat, addr: nat, value: byte) returns (w1: World, w2: World)
    requires Inv(w) && AllReadable(w) && id in w.spaces && PageOf(addr) in w.spaces[id].table
    requires !w.spaces[id].table[PageOf(addr)].present ==> w.phys.free != {}
    requires var page := Abstract(w)[id][PageOf(addr)]; page.view.Bytes? && !page.attr.readonly
    ensures if w.spaces[id].table[PageOf(addr)].present then w1 == w
            else exists frame :: Next(w, Fault(id, PageOf(addr), frame), w1)
    ensures Next(w1, Store(id, addr, value), w2)
  {
    hide Faulted, SpaceOk, NoSharing, NoLeak, Stored, BackingAt;
    var p := PageOf(addr);
    PermitsStore(w, id, p);
    w1 := w;
    if !w.spaces[id].table[p].present {
      var frame, sp', ph' := CanFault(w.spaces[id], w.phys, p);
      w1 := World(ph', w.spaces[id := sp']);
      assert Next(w, Fault(id, p, frame), w1);
    }
    var ph' := CanStore(w1.spaces[id], w1.phys, addr, value);
    w2 := w1.(phys := ph');
  }

  /** A page that the flat memory lets a program write is not a window, and its entry says writable. */
  lemma PermitsStore(w: World, id: nat, p: nat)
    requires Inv(w) && AllReadable(w) && id in w.spaces && p in w.spaces[id].table
    requires var page := Abstract(w)[id][p]; page.view.Bytes? && !page.attr.readonly
    ensures var sp := w.spaces[id];
            && sp.table[p].writable && BackingAt(sp.areas, p).Some? && !BackingAt(sp.areas, p).value.handler.Linear?
            && (sp.table[p].present ==> sp.table[p].target in w.phys.mem)
            && (!sp.table[p].present ==> Lazy(BackingAt(sp.areas, p).value.handler))
  {
    hide BackingAt;
    var sp := w.spaces[id];
    assert SpaceOk(sp, w.phys);
    assert EntryOk(BackingAt(sp.areas, p).value, p, sp.table[p], w.phys);
  }

  lemma CanFault(sp: Space, ph: Phys, p: nat) returns (frame: nat, sp': Space, ph': Phys)
    requires p in sp.table && !sp.table[p].present && sp.table[p].writable && ph.free != {}
    requires BackingAt(sp.areas, p).Some? && Lazy(BackingAt(sp.areas, p).value.handler)
    ensures Faulted(sp, ph, p, frame, sp', ph') && sp'.areas == sp.areas && p in sp'.table
    ensures sp'.table[p].present && sp'.table[p].writable && sp'.table[p].target in ph'.mem
  {
    hide BackingAt, FaultPage;
    frame :| frame in ph.free;
    sp' := sp.(table := sp.table[p := sp.table[p].(target := frame, present := true)]);
    ph' := Phys(ph.free - {frame}, ph.mem[frame := FaultPage(BackingAt(sp.areas, p).value.handler, p)]);
  }

  lemma CanStore(sp: Space, ph: Phys, addr: nat, value: byte) returns (ph': Phys)
    requires var p := PageOf(addr);
             && p in sp.table && sp.table[p].present && sp.table[p].writable && sp.table[p].target in ph.mem
             && BackingAt(sp.areas, p).Some? && !BackingAt(sp.areas, p).value.handler.Linear?
    ensures Stored(sp, ph, addr, value, ph')
  {
    hide BackingAt;
    var f := sp.table[PageOf(addr)].target;
    ph' := ph.(mem := ph.mem[f := ph.mem[f][addr % PAGE_SIZE := value]]);
  }
}
