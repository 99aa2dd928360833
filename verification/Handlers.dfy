/**
 The physical frames, the page table and the four memory handlers, with the state they update in
 place. An allocation that fails makes the source panic; here the method reports it.
 */
module Handlers {
  import opened Machine
  import opened Paging
  import opened AddressSpaces

  /** The frames that the `FrameAllocator` hands out, and their contents. */
  class FrameHeap {
    var free: set<nat>
    var mem: map<nat, PageData>

    ghost predicate Valid()
      reads this
    {
      free <= mem.Keys
    }

    ghost function State(): Phys
      reads this
    {
      Phys(free, mem)
    }

    constructor (frames: map<nat, PageData>)
      ensures Valid() && State() == Phys(frames.Keys, frames)
    {
      free, mem := frames.Keys, frames;
    }

    /** Any free frame may be returned; its contents are left as they were. */
    method Alloc() returns (r: Option<nat>)
      requires Valid()
      modifies this`free
      ensures Valid()
      ensures r.None? <==> old(free) == {}
      ensures free == old(free) - (if r.None? then {} else {r.value})
      ensures r.Some? ==> r.value in old(free)
    {
      if free == {} {
        return None;
      }
      var f :| f in free;
      free := free - {f};
      return Some(f);
    }

    /** Only an allocated frame may be freed. */
    method Dealloc(f: nat)
      requires Valid() && f in mem && f !in free
      modifies this`free
      ensures Valid() && free == old(free) + {f}
    {
      free := free + {f};
    }

    method CopyFrame(dst: nat, src: nat)
      requires Valid() && dst in mem && src in mem
      modifies this`mem
      ensures Valid() && mem == old(mem)[dst := old(mem)[src]]
    {
      mem := mem[dst := mem[src]];
    }

    /** Store `bytes` at the start of the frame. */
    method WritePrefix(f: nat, bytes: seq<byte>)
      requires Valid() && f in mem && |bytes| <= PAGE_SIZE
      modifies this`mem
      ensures Valid() && mem == old(mem)[f := bytes + old(mem)[f][|bytes|..]]
    {
      mem := mem[f := bytes + mem[f][|bytes|..]];
    }

    /** Clear the frame from byte `n` on, a byte at a time. */
    method ClearFrom(f: nat, n: nat)
      requires Valid() && f in mem && n <= PAGE_SIZE
      modifies this`mem
      ensures Valid() && mem == old(mem)[f := old(mem)[f][..n] + seq(PAGE_SIZE - n, _ => 0)]
    {
      ghost var before := mem[f];
      assert before == before[..n] + seq(0, _ => 0) + before[n..];
      for k := n to PAGE_SIZE
        invariant mem == old(mem)[f := before[..n] + seq(k - n, _ => 0) + before[k..]]
      {
        mem := mem[f := mem[f][k := 0]];
        assert mem[f] == before[..n] + seq(k + 1 - n, _ => 0) + before[k + 1..];
      }
      assert mem[f] == before[..n] + seq(PAGE_SIZE - n, _ => 0);
    }
  }

  class PageTable {
    var entries: map<nat, Entry>

    constructor ()
      ensures entries == map[]
    {
      entries := map[];
    }

    /** Mapping a page that is already mapped makes the source panic. */
    method Map(p: nat, target: nat)
      requires p !in entries
      modifies this
      ensures entries == old(entries)[p := FreshEntry(target)]
    {
      entries := entries[p := FreshEntry(target)];
    }

    /** Unmapping needs a present entry. */
    method Unmap(p: nat)
      requires p in entries && entries[p].present
      modifies this
      ensures entries == old(entries) - {p}
    {
      entries := entries - {p};
    }

    method SetPresent(p: nat, value: bool)
      requires p in entries
      modifies this
      ensures entries == old(entries)[p := old(entries)[p].(present := value)]
    {
      entries := entries[p := entries[p].(present := value)];
    }

    method SetTarget(p: nat, target: nat)
      requires p in entries
      modifies this
      ensures entries == old(entries)[p := old(entries)[p].(target := target)]
    {
      entries := entries[p := entries[p].(target := target)];
    }

    method ApplyAttr(p: nat, attr: MemoryAttr)
      requires p in entries
      modifies this
      ensures entries == old(entries)[p := Apply(attr, old(entries)[p])]
      ensures entries[p].target == old(entries)[p].target && entries[p].present == old(entries)[p].present
      ensures HasAttr(entries[p], attr)
    {
      entries := entries[p := Apply(attr, entries[p])];
    }
  }

  /** The entry lets through what the attributes allow. */
  predicate HasAttr(e: Entry, attr: MemoryAttr) {
    e.user == attr.user && e.writable == !attr.readonly && e.execute == attr.execute && e.mmio == attr.mmio
  }

  /** `MemoryHandler::map`: fails only when the eager policy finds no free frame. */
  method MapPage(h: Handler, pt: PageTable, heap: FrameHeap, p: nat, attr: MemoryAttr)
    returns (ok: bool, frame: nat)
    requires heap.Valid() && p !in pt.entries
    modifies pt, heap
    ensures heap.Valid() && heap.mem == old(heap.mem)
    ensures ok <==> !(h.ByFrame? && old(heap.free) == {})
    ensures pt.entries == if ok then old(pt.entries)[p := MapEntry(Backing(attr, h), p, frame)] else old(pt.entries)
    ensures ok ==> HasAttr(pt.entries[p], attr) && (pt.entries[p].present <==> !Lazy(h))
    ensures ok && h.ByFrame? ==>
              frame in old(heap.free) && heap.free == old(heap.free) - {frame} && pt.entries[p].target == frame
    ensures !(ok && h.ByFrame?) ==> heap.free == old(heap.free)
  {
    ok, frame := true, 0;
    match h
    case Linear(offset) =>
      pt.Map(p, LinearTarget(p, offset));
      pt.ApplyAttr(p, attr);
    case ByFrame =>
      var r := heap.Alloc();
      if r.None? {
        return false, 0;
      }
      frame := r.value;
      pt.Map(p, frame);
      pt.ApplyAttr(p, attr);
    case Delay =>
      pt.Map(p, 0);
      pt.SetPresent(p, false);
      pt.ApplyAttr(p, attr);
    case File(_, _, _, _) =>
      pt.Map(p, 0);
      pt.SetPresent(p, false);
      pt.ApplyAttr(p, attr);
  }

  /** What a handler needs of an entry to unmap it: a lazy one may be absent, an owned frame is allocated. */
  predicate UnmapOk(h: Handler, e: Entry, ph: Phys) {
    && (Lazy(h) || e.present)
    && (Owns(h, e) ==> e.target in ph.mem && e.target !in ph.free)
  }

  /** `MemoryHandler::unmap`. */
  method UnmapPage(h: Handler, pt: PageTable, heap: FrameHeap, p: nat)
    requires heap.Valid() && p in pt.entries && UnmapOk(h, pt.entries[p], heap.State())
    modifies pt, heap
    ensures heap.Valid() && heap.mem == old(heap.mem)
    ensures pt.entries == old(pt.entries) - {p}
    ensures heap.free == old(heap.free) + if Owns(h, old(pt.entries)[p]) then {old(pt.entries)[p].target} else {}
  {
    match h
    case Linear(_) =>
      pt.Unmap(p);
    case ByFrame =>
      heap.Dealloc(pt.entries[p].target);
      pt.Unmap(p);
    case Delay =>
      if pt.entries[p].present {
        heap.Dealloc(pt.entries[p].target);
      }
      pt.SetPresent(p, true);
      pt.Unmap(p);
    case File(_, _, _, _) =>
      if pt.entries[p].present {
        heap.Dealloc(pt.entries[p].target);
      }
      pt.SetPresent(p, true);
      pt.Unmap(p);
  }

  /** `MemoryHandler::clone_map`: copy the data of a page that holds some, else map it afresh. */
  method ClonePage(h: Handler, pt: PageTable, src: PageTable, heap: FrameHeap, p: nat, attr: MemoryAttr)
    returns (ok: bool, frame: nat)
    requires heap.Valid() && pt != src && p !in pt.entries && p in src.entries
    requires UnmapOk(h, src.entries[p], heap.State())
    modifies pt, heap
    ensures heap.Valid()
    ensures ok <==> !(Copies(Backing(attr, h), src.entries[p]) && old(heap.free) == {})
    ensures pt.entries
         == if ok then old(pt.entries)[p := CloneEntry(Backing(attr, h), src.entries[p], p, frame)] else old(pt.entries)
    ensures ok && Copies(Backing(attr, h), src.entries[p]) ==>
              && frame in old(heap.free) && heap.free == old(heap.free) - {frame}
              && heap.mem == old(heap.mem)[frame := old(heap.mem)[src.entries[p].target]]
    ensures !(ok && Copies(Backing(attr, h), src.entries[p])) ==> heap.State() == old(heap.State())
    ensures ok ==> HasAttr(pt.entries[p], attr)
    ensures ok ==>
              if TakesFrame(Backing(attr, h), src.entries[p])
              then heap.free == old(heap.free) - {frame} && pt.entries[p].present && pt.entries[p].target == frame
              else heap.free == old(heap.free) && (pt.entries[p].present <==> h.Linear?)
  {
    var e := src.entries[p];
    match h
    case Linear(_) =>
      ok, frame := MapPage(h, pt, heap, p, attr);
    case ByFrame =>
      ok, frame := MapPage(h, pt, heap, p, attr);
      if ok {
        heap.CopyFrame(frame, e.target);
      }
    case Delay =>
      if e.present {
        ok, frame := CopyEagerly(pt, heap, p, attr, e.target);
      } else {
        ok, frame := MapPage(h, pt, heap, p, attr);
      }
    case File(_, _, _, _) =>
      if e.present && !attr.readonly {
        ok, frame := CopyEagerly(pt, heap, p, attr, e.target);
      } else {
        ok, frame := MapPage(h, pt, heap, p, attr);
      }
  }

  method CopyEagerly(pt: PageTable, heap: FrameHeap, p: nat, attr: MemoryAttr, from: nat)
    returns (ok: bool, frame: nat)
    requires heap.Valid() && p !in pt.entries && from in heap.mem
    modifies pt, heap
    ensures heap.Valid()
    ensures ok <==> old(heap.free) != {}
    ensures !ok ==> pt.entries == old(pt.entries) && heap.State() == old(heap.State())
    ensures ok ==>
              && frame in old(heap.free) && heap.free == old(heap.free) - {frame}
              && heap.mem == old(heap.mem)[frame := old(heap.mem)[from]]
              && pt.entries == old(pt.entries)[p := Apply(attr, FreshEntry(frame))]
  {
    var r := heap.Alloc();
    if r.None? {
      return false, 0;
    }
    frame := r.value;
    pt.Map(p, frame);
    pt.ApplyAttr(p, attr);
    heap.CopyFrame(frame, from);
    return true, frame;
  }

  datatype FaultOutcome = Handled(frame: nat) | Refused | OutOfFrames

  /**
   `MemoryHandler::handle_page_fault`: refuses unless the page is a lazy one that is absent; else the
   page gets one fresh frame holding exactly the bytes it stood for.
   */
  method FaultIn(h: Handler, pt: PageTable, heap: FrameHeap, p: nat) returns (r: FaultOutcome)
    requires heap.Valid() && p in pt.entries
    modifies pt, heap
    ensures heap.Valid()
    ensures r.Refused? <==> !(Lazy(h) && !old(pt.entries)[p].present)
    ensures r.OutOfFrames? ==> old(heap.free) == {}
    ensures !r.Handled? ==> pt.entries == old(pt.entries) && heap.State() == old(heap.State())
    ensures r.Handled? ==>
              && Lazy(h) && r.frame in old(heap.free)
              && pt.entries == old(pt.entries)[p := old(pt.entries)[p].(target := r.frame, present := true)]
              && heap.State() == Phys(old(heap.free) - {r.frame}, old(heap.mem)[r.frame := FaultPage(h, p)])
  {
    if !Lazy(h) || pt.entries[p].present {
      return Refused;
    }
    var a := heap.Alloc();
    if a.None? {
      return OutOfFrames;
    }
    var frame := a.value;
    pt.SetTarget(p, frame);
    pt.SetPresent(p, true);
    if h.Delay? {
      heap.ClearFrom(frame, 0);
      assert heap.mem[frame] == ZeroPage();
    } else {
      FillData(h, heap, frame, p);
    }
    return Handled(frame);
  }

  /** `File::fill_data`: what the file has for the page, and zeros after it. */
  method FillData(h: Handler, heap: FrameHeap, frame: nat, p: nat)
    requires heap.Valid() && h.File? && frame in heap.mem
    modifies heap`mem
    ensures heap.Valid() && heap.mem == old(heap.mem)[frame := FaultPage(h, p)]
  {
    var got := ReadAt(h.content, FileOffset(h, p), ReadSize(h, p));
    heap.WritePrefix(frame, got);
    if |got| != PAGE_SIZE {
      heap.ClearFrom(frame, |got|);
    }
    assert heap.mem[frame] == FaultPage(h, p);
  }
}
