/**
 Pages, page-table entries, memory areas and the four backing policies, as values.
 Addresses are natural numbers below `ADDRESS_LIMIT`; a page is named by its number.
 */
module Paging {
  import opened Machine

  /** Rounding an area's end up to a page must not leave the 64-bit address space. */
  const ADDRESS_LIMIT: nat := 0x1_0000_0000_0000_0000 - 4096

  datatype MemoryAttr = MemoryAttr(user: bool, readonly: bool, execute: bool, mmio: nat)

  datatype Entry = Entry(target: nat, present: bool, user: bool, writable: bool, execute: bool, mmio: nat)

  /** How the pages of an area get their memory. A file is the bytes its inode holds. */
  datatype Handler =
    | Linear(offset: int)
    | ByFrame
    | Delay
    | File(content: seq<byte>, memStart: nat, fileStart: nat, fileEnd: nat)

  datatype MemoryArea = MemoryArea(start: nat, end: nat, attr: MemoryAttr, handler: Handler)

  /** What a single page keeps of the area it lies in. */
  datatype Backing = Backing(attr: MemoryAttr, handler: Handler)

  // ---------------------------------------------------------------- pages

  function PageOf(addr: nat): nat {
    addr / PAGE_SIZE
  }

  predicate Aligned(addr: nat) {
    addr % PAGE_SIZE == 0
  }

  function RoundDown(addr: nat): nat {
    addr / PAGE_SIZE * PAGE_SIZE
  }

  function RoundUp(addr: nat): nat {
    (addr + PAGE_SIZE - 1) / PAGE_SIZE * PAGE_SIZE
  }

  function PageRange(lo: nat, hi: nat): (r: set<nat>)
    ensures forall p: nat :: p in r <==> lo <= p < hi
    ensures |r| == if lo <= hi then hi - lo else 0
    decreases hi
  {
    if hi <= lo then {} else PageRange(lo, hi - 1) + {hi - 1}
  }

  /** Page `p` is one of those that `Page::range_of(start, end)` yields. */
  predicate InSpan(p: nat, start: nat, end: nat) {
    start < (p + 1) * PAGE_SIZE && p * PAGE_SIZE < end
  }

  /** The pages that `Page::range_of(start, end)` yields. */
  function PageSpan(start: nat, end: nat): (r: set<nat>)
    requires 1 <= end
    ensures forall p: nat :: p in r <==> InSpan(p, start, end)
  {
    PageRange(PageOf(start), PageOf(end - 1) + 1)
  }

  // ---------------------------------------------------------------- areas

  predicate WellFormedArea(a: MemoryArea) {
    a.start < a.end <= ADDRESS_LIMIT && Aligned(a.start) && Aligned(a.end)
  }

  /** Page-aligned, non-empty, disjoint areas in address order. */
  predicate WellFormed(areas: seq<MemoryArea>) {
    && (forall i :: 0 <= i < |areas| ==> WellFormedArea(areas[i]))
    && (forall i, j :: 0 <= i < j < |areas| ==> areas[i].end <= areas[j].start)
  }

  function BackingOf(a: MemoryArea): Backing {
    Backing(a.attr, a.handler)
  }

  /** The meaning of an area vector, page by page: what backs the page, if it exists. */
  function BackingAt(areas: seq<MemoryArea>, p: nat): Option<Backing> {
    if areas == [] then None
    else if InSpan(p, areas[0].start, areas[0].end) then Some(BackingOf(areas[0]))
    else BackingAt(areas[1..], p)
  }

  // ---------------------------------------------------------------- entries

  /** `MemoryAttr::apply`. */
  function Apply(attr: MemoryAttr, e: Entry): Entry {
    e.(user := attr.user, writable := !attr.readonly, execute := attr.execute, mmio := attr.mmio)
  }

  /** A freshly mapped entry, before any attribute is applied. */
  function FreshEntry(target: nat): Entry {
    Entry(target, true, false, false, false, 0)
  }

  /** A linear page lies at its address plus the offset, in 64 bits. */
  function LinearTarget(p: nat, offset: int): (r: nat)
    ensures r < TWO_64 && (r - p * PAGE_SIZE - offset) % TWO_64 == 0
  {
    Usize(p * PAGE_SIZE + offset)
  }

  predicate Lazy(h: Handler) {
    h.Delay? || h.File?
  }

  /** Whether a handler owns the frame its entry points to. */
  predicate Owns(h: Handler, e: Entry) {
    !h.Linear? && e.present
  }

  /** The entry that `MemoryHandler::map` leaves for page `p`; `frame` is used by the eager policy only. */
  function MapEntry(b: Backing, p: nat, frame: nat): Entry {
    match b.handler
    case Linear(offset) => Apply(b.attr, FreshEntry(LinearTarget(p, offset)))
    case ByFrame => Apply(b.attr, FreshEntry(frame))
    case Delay => Apply(b.attr, FreshEntry(0).(present := false))
    case File(_, _, _, _) => Apply(b.attr, FreshEntry(0).(present := false))
  }

  /** Whether fork copies the frame of this page (a present read-only file page is delayed again). */
  predicate Copies(b: Backing, e: Entry) {
    match b.handler
    case Linear(_) => false
    case ByFrame => true
    case Delay => e.present
    case File(_, _, _, _) => e.present && !b.attr.readonly
  }

  /** The entry that `MemoryHandler::clone_map` leaves in the new table. */
  function CloneEntry(b: Backing, e: Entry, p: nat, frame: nat): Entry {
    if Copies(b, e) then Apply(b.attr, FreshEntry(frame)) else MapEntry(b, p, frame)
  }

  // ---------------------------------------------------------------- file pages

  function FileOffset(h: Handler, p: nat): nat
    requires h.File?
  {
    Usize(p * PAGE_SIZE + h.fileStart - h.memStart)
  }

  /** How many bytes a fault asks the file for. */
  function ReadSize(h: Handler, p: nat): (n: nat)
    requires h.File?
    ensures n <= PAGE_SIZE
  {
    var wanted := Isize(h.fileEnd - FileOffset(h, p));
    if wanted < 0 then 0 else if wanted > PAGE_SIZE then PAGE_SIZE else wanted
  }

  /** `INode::read_at`: the bytes of the file from `offset`, at most `len` of them. */
  function ReadAt(content: seq<byte>, offset: nat, len: nat): (r: seq<byte>)
    ensures |r| <= len
  {
    if offset >= |content| then []
    else if offset + len <= |content| then content[offset..offset + len]
    else content[offset..]
  }

  function ZeroPage(): PageData {
    seq(PAGE_SIZE, _ => 0)
  }

  /** The bytes that a fault on page `p` of a lazy area produces. */
  function FaultPage(h: Handler, p: nat): PageData
    requires Lazy(h)
  {
    if h.Delay? then ZeroPage()
    else
      var got := ReadAt(h.content, FileOffset(h, p), ReadSize(h, p));
      got + seq(PAGE_SIZE - |got|, _ => 0)
  }

  /**
   Byte `k` of a demand-loaded file page is the file byte at `address - memStart + fileStart` while
   that lies below `fileEnd` and inside the file, and zero otherwise.
   */
  lemma FaultPageIsFileByte(h: Handler, p: nat, k: nat)
    requires h.File? && k < PAGE_SIZE && 0 <= OffsetOf(h, p) < TWO_64
    requires -TWO_63 <= h.fileEnd - OffsetOf(h, p) < TWO_63
    ensures FaultPage(h, p)[k] == FileByte(h, p, k)
  {
    assert FileOffset(h, p) == OffsetOf(h, p);
    assert Isize(h.fileEnd - OffsetOf(h, p)) == h.fileEnd - OffsetOf(h, p);
  }

  /** Where in the file a page of the mapping begins. */
  function OffsetOf(h: Handler, p: nat): int
    requires h.File?
  {
    p * PAGE_SIZE + h.fileStart - h.memStart
  }

  /** What byte `k` of the page should be. */
  function FileByte(h: Handler, p: nat, k: nat): byte
    requires h.File? && 0 <= OffsetOf(h, p)
  {
    var offset := OffsetOf(h, p) + k;
    if offset < h.fileEnd && offset < |h.content| then h.content[offset] else 0
  }

  /** Whatever the file holds, demand loading gives each byte of the page its due. */
  ghost predicate LoadsExactly(h: Handler, p: nat)
    requires h.File? && 0 <= OffsetOf(h, p)
  {
    forall content: seq<byte>, k: nat :: k < PAGE_SIZE ==>
      FaultPage(h.(content := content), p)[k] == FileByte(h.(content := content), p, k)
  }

  /** That is so if and only if the file's end is less than 2^63 away from the page. */
  lemma LoadsExactlyIff(h: Handler, p: nat)
    requires h.File? && 0 <= OffsetOf(h, p) < TWO_64 && h.fileEnd < TWO_64
    ensures LoadsExactly(h, p) <==> -TWO_63 <= h.fileEnd - OffsetOf(h, p) < TWO_63
  {
    hide FaultPage, FileByte;
    if -TWO_63 <= h.fileEnd - OffsetOf(h, p) < TWO_63 {
      forall content: seq<byte>, k: nat | k < PAGE_SIZE
        ensures FaultPage(h.(content := content), p)[k] == FileByte(h.(content := content), p, k)
      {
        FaultPageIsFileByte(h.(content := content), p, k);
      }
    } else {
      var content: seq<byte> := seq(OffsetOf(h, p) + 1, _ => 1);
      FarEndMisread(h.(content := content), p);
      assert FaultPage(h.(content := content), p)[0] != FileByte(h.(content := content), p, 0);
    }
  }

  lemma FarEndMisread(h: Handler, p: nat)
    requires h.File? && 0 <= OffsetOf(h, p) < TWO_64 && h.fileEnd < TWO_64
    requires |h.content| == OffsetOf(h, p) + 1 && h.content[OffsetOf(h, p)] == 1
    requires !(-TWO_63 <= h.fileEnd - OffsetOf(h, p) < TWO_63)
    ensures FaultPage(h, p)[0] != FileByte(h, p, 0)
  {
    assert FileOffset(h, p) == OffsetOf(h, p);
    var got := ReadAt(h.content, FileOffset(h, p), ReadSize(h, p));
    assert h.fileEnd > OffsetOf(h, p) ==> got == [];
    assert h.fileEnd < OffsetOf(h, p) ==> got != [] && got[0] == 1;
  }
}
