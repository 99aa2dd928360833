/**
 Many address spaces that share one frame allocator. Every step keeps page tables, areas and
 allocator in agreement: no frame is shared and none is lost.
 */
module DemandPaging {
  import opened Machine
  import opened Paging
  import opened Areas
  import opened AddressSpaces

  datatype World = World(phys: Phys, spaces: map<nat, Space>)

  datatype Step =
    | Create(id: nat)
    | Push(id: nat, area: MemoryArea, picks: map<nat, nat>)
    | Remove(id: nat, pages: set<nat>)
    | Fault(id: nat, page: nat, frame: nat)
    | Fork(id: nat, child: nat, picks: map<nat, nat>)
    | Store(id: nat, addr: nat, value: byte)
    | Destroy(id: nat)

  /** One kernel operation, or one store by a user program, takes `w` to `w'`. */
  ghost predicate Next(w: World, step: Step, w': World) {
    match step
    case Create(id) => id !in w.spaces && w' == w.(spaces := w.spaces[id := Space([], map[])])
    case Push(id, a, picks) =>
      && id in w.spaces && id in w'.spaces && w'.spaces == w.spaces[id := w'.spaces[id]]
      && Pushed(w.spaces[id], w.phys, a, picks, w'.spaces[id], w'.phys)
    case Remove(id, pages) =>
      && id in w.spaces && id in w'.spaces && w'.spaces == w.spaces[id := w'.spaces[id]]
      && Removed(w.spaces[id], w.phys, pages, w'.spaces[id], w'.phys)
    case Fault(id, p, frame) =>
      && id in w.spaces && id in w'.spaces && w'.spaces == w.spaces[id := w'.spaces[id]]
      && Faulted(w.spaces[id], w.phys, p, frame, w'.spaces[id], w'.phys)
    case Fork(id, child, picks) =>
      && id in w.spaces && child !in w.spaces && child in w'.spaces
      && w'.spaces == w.spaces[child := w'.spaces[child]]
      && Forked(w.spaces[id], w.phys, picks, w'.spaces[child], w'.phys)
    case Store(id, addr, value) =>
      && id in w.spaces && w'.spaces == w.spaces
      && Stored(w.spaces[id], w.phys, addr, value, w'.phys)
    case Destroy(id) =>
      && id in w.spaces && w'.spaces == w.spaces - {id}
      && w'.phys == w.phys.(free := w.phys.free + Frames(w.spaces[id], w.spaces[id].table.Keys))
  }

  // ---------------------------------------------------------------- the invariant

  predicate Holds(w: World, id: nat, p: nat) {
    id in w.spaces && OwnsPage(w.spaces[id], p)
  }

  function FrameOf(w: World, id: nat, p: nat): nat
    requires Holds(w, id, p)
  {
    w.spaces[id].table[p].target
  }

  ghost predicate HasOwner(w: World, f: nat) {
    exists id: nat, p: nat :: Holds(w, id, p) && FrameOf(w, id, p) == f
  }

  /** No two pages, of one space or of two, own the same frame. */
  ghost predicate NoSharing(w: World) {
    forall id: nat, p: nat, id2: nat, q: nat ::
      Holds(w, id, p) && Holds(w, id2, q) && FrameOf(w, id, p) == FrameOf(w, id2, q) ==> id == id2 && p == q
  }

  /** Every frame that is not free is owned by some page. */
  ghost predicate NoLeak(w: World) {
    forall f: nat :: f in w.phys.mem && f !in w.phys.free ==> HasOwner(w, f)
  }

  ghost predicate Inv(w: World) {
    && w.phys.free <= w.phys.mem.Keys
    && (forall id: nat :: id in w.spaces ==> SpaceOk(w.spaces[id], w.phys))
    && NoSharing(w)
    && NoLeak(w)
  }

  ghost predicate Init(w: World) {
    w.spaces == map[] && w.phys.free == w.phys.mem.Keys
  }

  /** An owned frame is allocated; it is not among the free frames that a step may hand out. */
  lemma HeldIsAllocated(w: World, id: nat, p: nat)
    requires Inv(w) && Holds(w, id, p)
    ensures FrameOf(w, id, p) in w.phys.mem && FrameOf(w, id, p) !in w.phys.free
  {
    OwnedIsAllocated(w.spaces[id], w.phys, p);
  }

  /** Spaces that a step does not touch stay sound. */
  lemma OthersOk(w: World, w': World, id: nat)
    requires Inv(w)
    requires forall k: nat :: k in w'.spaces && k != id ==> k in w.spaces && w'.spaces[k] == w.spaces[k]
    requires forall k: nat, p: nat :: Holds(w, k, p) && k != id ==>
               var f := FrameOf(w, k, p);
               f in w'.phys.mem && f !in w'.phys.free && f in w.phys.mem && w'.phys.mem[f] == w.phys.mem[f]
    ensures forall k: nat :: k in w'.spaces && k != id ==> SpaceOk(w'.spaces[k], w'.phys)
  {
    forall k: nat | k in w'.spaces && k != id
      ensures SpaceOk(w'.spaces[k], w'.phys)
    {
      assert forall p: nat :: OwnsPage(w.spaces[k], p) ==> Holds(w, k, p);
      SpaceOkFrame(w.spaces[k], w.phys, w'.phys);
    }
  }

  /** Owners that survive a step keep their frame. */
  ghost predicate KeepsOwners(w: World, w': World, gone: set<nat>) {
    forall id: nat, p: nat :: Holds(w, id, p) && FrameOf(w, id, p) !in gone ==>
      Holds(w', id, p) && FrameOf(w', id, p) == FrameOf(w, id, p)
  }

  lemma KeptOwner(w: World, w': World, gone: set<nat>, f: nat)
    requires KeepsOwners(w, w', gone) && HasOwner(w, f) && f !in gone
    ensures HasOwner(w', f)
  {
    var id: nat, p: nat :| Holds(w, id, p) && FrameOf(w, id, p) == f;
    assert Holds(w', id, p) && FrameOf(w', id, p) == f;
  }

  // ---------------------------------------------------------------- steps keep the invariant

  lemma CreateKeepsInv(w: World, step: Step, w': World)
    requires Inv(w) && Next(w, step, w') && step.Create?
    ensures Inv(w')
  {
    hide SpaceOk, OwnsPage;
    EmptySpaceOk(w.phys);
    forall id: nat, p: nat
      ensures Holds(w', id, p) <==> Holds(w, id, p)
      ensures Holds(w, id, p) ==> FrameOf(w', id, p) == FrameOf(w, id, p)
    {
      EmptyOwnsNothing(p);
    }
    forall f: nat | f in w'.phys.mem && f !in w'.phys.free
      ensures HasOwner(w', f)
    {
      KeptOwner(w, w', {}, f);
    }
  }

  lemma EmptySpaceOk(ph: Phys)
    ensures SpaceOk(Space([], map[]), ph)
  {
  }

  lemma EmptyOwnsNothing(p: nat)
    ensures !OwnsPage(Space([], map[]), p)
  {
  }

  /** The space `id` (possibly new) owns what it did before, and the pages of `picks` besides. */
  ghost predicate Grew(w: World, w': World, id: nat, picks: map<nat, nat>) {
    && id in w'.spaces && w'.spaces == w.spaces[id := w'.spaces[id]]
    && (forall p: nat :: OwnsPage(w'.spaces[id], p) <==> Holds(w, id, p) || p in picks)
    && (forall p: nat :: Holds(w, id, p) ==> w'.spaces[id].table[p].target == FrameOf(w, id, p))
    && (forall p: nat :: p in picks ==> !Holds(w, id, p) && w'.spaces[id].table[p].target == picks[p])
  }

  lemma GrewOwners(w: World, w': World, id: nat, picks: map<nat, nat>)
    requires Inv(w) && Grew(w, w', id, picks) && ValidPicks(picks, w.phys.free)
    requires w'.phys.free == w.phys.free - picks.Values && w'.phys.mem.Keys == w.phys.mem.Keys
    ensures NoSharing(w') && NoLeak(w')
  {
    hide BackingAt, SpaceOk;
    forall k: nat, p: nat
      ensures Holds(w', k, p) <==> Holds(w, k, p) || (k == id && p in picks)
      ensures Holds(w, k, p) ==> FrameOf(w', k, p) == FrameOf(w, k, p) && FrameOf(w, k, p) !in w.phys.free
    {
      if Holds(w, k, p) {
        HeldIsAllocated(w, k, p);
      }
    }
    forall f: nat | f in w'.phys.mem && f !in w'.phys.free
      ensures HasOwner(w', f)
    {
      if f in picks.Values {
        var p :| p in picks && picks[p] == f;
        assert Holds(w', id, p) && FrameOf(w', id, p) == f;
      } else {
        KeptOwner(w, w', {}, f);
      }
    }
  }

  /** Handing out free frames leaves every other space sound. */
  lemma AllocKeepsOthers(w: World, w': World, id: nat)
    requires Inv(w) && id in w'.spaces && w'.spaces == w.spaces[id := w'.spaces[id]]
    requires w'.phys.free <= w.phys.free && w'.phys.mem.Keys == w.phys.mem.Keys
    requires forall f: nat :: f in w.phys.mem && f !in w.phys.free ==> w'.phys.mem[f] == w.phys.mem[f]
    ensures forall k: nat :: k in w'.spaces && k != id ==> SpaceOk(w'.spaces[k], w'.phys)
  {
    forall k: nat, p: nat | Holds(w, k, p)
      ensures FrameOf(w, k, p) in w.phys.mem && FrameOf(w, k, p) !in w.phys.free
    {
      HeldIsAllocated(w, k, p);
    }
    OthersOk(w, w', id);
  }

  lemma AddedGrew(w: World, w': World, id: nat, a: MemoryArea, picks: map<nat, nat>)
    requires id in w.spaces && id in w'.spaces && w'.spaces == w.spaces[id := w'.spaces[id]]
    requires Added(w.spaces[id], a, picks, w'.spaces[id])
    ensures Grew(w, w', id, picks)
  {
    hide AddedAt;
    var sp, sp' := w.spaces[id], w'.spaces[id];
    forall p: nat
      ensures OwnsPage(sp', p) <==> OwnsPage(sp, p) || p in picks
      ensures OwnsPage(sp, p) ==> p !in picks && sp'.table[p] == sp.table[p]
      ensures p in picks ==> p in sp'.table && sp'.table[p].target == picks[p]
    {
      AddedOwner(sp, a, picks, sp', p);
    }
  }

  lemma PushKeepsInv(w: World, step: Step, w': World)
    requires Inv(w) && Next(w, step, w') && step.Push?
    ensures Inv(w')
  {
    hide SpaceOk, Insert, WellFormed, TestFree, MapEntries, Added, Grew;
    PushedOk(w.spaces[step.id], w.phys, step.area, step.picks, w'.spaces[step.id], w'.phys);
    AddedGrew(w, w', step.id, step.area, step.picks);
    AllocKeepsOthers(w, w', step.id);
    GrewOwners(w, w', step.id, step.picks);
  }

  lemma FaultKeepsInv(w: World, step: Step, w': World)
    requires Inv(w) && Next(w, step, w') && step.Fault?
    ensures Inv(w')
  {
    hide SpaceOk, FaultPage, BackingAt;
    var sp, sp' := w.spaces[step.id], w'.spaces[step.id];
    FaultedOk(sp, w.phys, step.page, step.frame, sp', w'.phys);
    var picks: map<nat, nat> := map[step.page := step.frame];
    assert step.page in picks && picks.Values == {step.frame};
    AllocKeepsOthers(w, w', step.id);
    GrewOwners(w, w', step.id, picks);
  }

  lemma ForkKeepsInv(w: World, step: Step, w': World)
    requires Inv(w) && Next(w, step, w') && step.Fork?
    ensures Inv(w')
  {
    hide SpaceOk, BackingAt, CloneEntry;
    ForkedOk(w.spaces[step.id], w.phys, step.picks, w'.spaces[step.child], w'.phys);
    AllocKeepsOthers(w, w', step.child);
    GrewOwners(w, w', step.child, step.picks);
  }

  /** Freed frames had exactly one owner, and that owner is gone. */
  lemma DropOwners(w: World, w': World, id: nat, pages: set<nat>)
    requires Inv(w) && id in w.spaces
    requires w'.phys == w.phys.(free := w.phys.free + Frames(w.spaces[id], pages))
    requires forall k: nat, p: nat :: Holds(w', k, p) <==> Holds(w, k, p) && !(k == id && p in pages)
    requires forall k: nat, p: nat :: Holds(w', k, p) ==> FrameOf(w', k, p) == FrameOf(w, k, p)
    ensures w'.phys.free <= w'.phys.mem.Keys && NoSharing(w') && NoLeak(w')
    ensures forall k: nat, p: nat :: Holds(w', k, p) ==> FrameOf(w', k, p) in w.phys.mem && FrameOf(w', k, p) !in w'.phys.free
  {
    hide SpaceOk, BackingAt;
    var gone := Frames(w.spaces[id], pages);
    forall f | f in gone
      ensures f in w.phys.mem
    {
      var p :| p in pages && OwnsPage(w.spaces[id], p) && w.spaces[id].table[p].target == f;
      assert Holds(w, id, p);
      HeldIsAllocated(w, id, p);
    }
    forall k: nat, p: nat | Holds(w', k, p)
      ensures FrameOf(w', k, p) in w.phys.mem && FrameOf(w', k, p) !in w'.phys.free
    {
      HeldIsAllocated(w, k, p);
      assert forall q :: q in pages && OwnsPage(w.spaces[id], q) ==> Holds(w, id, q);
    }
    assert KeepsOwners(w, w', gone);
    forall f: nat | f in w'.phys.mem && f !in w'.phys.free
      ensures HasOwner(w', f)
    {
      KeptOwner(w, w', gone, f);
    }
  }

  lemma RemoveKeepsInv(w: World, step: Step, w': World)
    requires Inv(w) && Next(w, step, w') && step.Remove?
    ensures Inv(w')
  {
    hide BackingAt, EntryOk, WellFormed, Frames, SpaceOk;
    RemovedOk(w.spaces[step.id], w.phys, step.pages, w'.spaces[step.id], w'.phys);
    forall k: nat, p: nat
      ensures Holds(w', k, p) <==> Holds(w, k, p) && !(k == step.id && p in step.pages)
      ensures Holds(w', k, p) ==> FrameOf(w', k, p) == FrameOf(w, k, p)
    {
    }
    DropOwners(w, w', step.id, step.pages);
    OthersOk(w, w', step.id);
  }

  lemma DestroyKeepsInv(w: World, step: Step, w': World)
    requires Inv(w) && Next(w, step, w') && step.Destroy?
    ensures Inv(w')
  {
    hide BackingAt, EntryOk, WellFormed, Frames;
    forall k: nat, p: nat
      ensures Holds(w', k, p) <==> Holds(w, k, p) && !(k == step.id && p in w.spaces[step.id].table.Keys)
      ensures Holds(w', k, p) ==> FrameOf(w', k, p) == FrameOf(w, k, p)
    {
    }
    DropOwners(w, w', step.id, w.spaces[step.id].table.Keys);
    OthersOk(w, w', step.id);
  }

  lemma StoreKeepsInv(w: World, step: Step, w': World)
    requires Inv(w) && Next(w, step, w') && step.Store?
    ensures Inv(w')
  {
    hide BackingAt, EntryOk, WellFormed, SpaceOk;
    StoredOk(w.spaces[step.id], w.phys, step.addr, step.value, w'.phys);
    assert Holds(w, step.id, PageOf(step.addr));
    forall k: nat, p: nat | Holds(w, k, p)
      ensures FrameOf(w, k, p) in w.phys.mem && FrameOf(w, k, p) !in w.phys.free
    {
      HeldIsAllocated(w, k, p);
    }
    OthersOk(w, w', step.id);
    assert forall k: nat, p: nat :: Holds(w', k, p) <==> Holds(w, k, p);
    assert forall k: nat, p: nat :: Holds(w, k, p) ==> FrameOf(w', k, p) == FrameOf(w, k, p);
    forall f: nat | f in w'.phys.mem && f !in w'.phys.free
      ensures HasOwner(w', f)
    {
      KeptOwner(w, w', {}, f);
    }
  }

  lemma StepKeepsInv(w: World, step: Step, w': World)
    requires Inv(w) && Next(w, step, w')
    ensures Inv(w')
  {
    match step
    case Create(_) => CreateKeepsInv(w, step, w');
    case Push(_, _, _) => PushKeepsInv(w, step, w');
    case Remove(_, _) => RemoveKeepsInv(w, step, w');
    case Fault(_, _, _) => FaultKeepsInv(w, step, w');
    case Fork(_, _, _) => ForkKeepsInv(w, step, w');
    case Store(_, _, _) => StoreKeepsInv(w, step, w');
    case Destroy(_) => DestroyKeepsInv(w, step, w');
  }
}
