/** Checking user pointers against the area vector, and finding room for a new area. */
module UserMemory {
  import opened Machine
  import opened Paging
  import opened Areas

  // ---------------------------------------------------------------- user pointers

  /** `MemoryArea::check_read_array` and `check_write_array`: how much of `[lo, hi)` the area covers. */
  function Covered(a: MemoryArea, lo: nat, hi: nat, write: bool): nat {
    if write && a.attr.readonly then 0
    else
      var minBound := if lo < RoundDown(a.start) then RoundDown(a.start) else lo;
      var end := RoundDown(a.end + PAGE_SIZE - 1);
      var maxBound := if hi < end then hi else end;
      if maxBound >= minBound then maxBound - minBound else 0
  }

  function CoveredSum(areas: seq<MemoryArea>, lo: nat, hi: nat, write: bool): nat {
    if areas == [] then 0 else Covered(areas[0], lo, hi, write) + CoveredSum(areas[1..], lo, hi, write)
  }

  /** Some area holds the byte at `addr` (a writable one, if `write`). */
  predicate Accessible(areas: seq<MemoryArea>, addr: nat, write: bool) {
    exists i :: 0 <= i < |areas| && Contains(areas[i], addr) && !(write && areas[i].attr.readonly)
  }

  lemma CoveredIsOverlap(a: MemoryArea, lo: nat, hi: nat)
    requires WellFormedArea(a)
    ensures Covered(a, lo, hi, false)
         == var l := if lo < a.start then a.start else lo;
            var h := if hi < a.end then hi else a.end;
            if h >= l then h - l else 0
  {
    assert RoundDown(a.start) == a.start && RoundDown(a.end + PAGE_SIZE - 1) == a.end;
  }

  lemma {:induction false} CoveredSumAppend(areas: seq<MemoryArea>, a: MemoryArea, lo: nat, hi: nat, write: bool)
    ensures CoveredSum(areas + [a], lo, hi, write) == CoveredSum(areas, lo, hi, write) + Covered(a, lo, hi, write)
  {
    if areas == [] {
      assert areas + [a] == [a];
    } else {
      CoveredSumAppend(areas[1..], a, lo, hi, write);
      assert (areas + [a])[1..] == areas[1..] + [a];
    }
  }

  /** Areas that start at or above `mid` cover the same of `[lo, hi)` as of `[mid, hi)`. */
  lemma {:induction false} CoveredSumAbove(areas: seq<MemoryArea>, lo: nat, mid: nat, hi: nat, write: bool)
    requires WellFormed(areas) && lo <= mid <= hi
    requires forall i :: 0 <= i < |areas| ==> mid <= areas[i].start
    ensures CoveredSum(areas, lo, hi, write) == CoveredSum(areas, mid, hi, write)
  {
    if areas != [] {
      CoveredIsOverlap(areas[0], lo, hi);
      CoveredIsOverlap(areas[0], mid, hi);
      CoveredSumAbove(areas[1..], lo, mid, hi, write);
    }
  }

  lemma AccessibleSplit(areas: seq<MemoryArea>, addr: nat, write: bool)
    requires areas != []
    ensures Accessible(areas, addr, write)
        <==> (Contains(areas[0], addr) && !(write && areas[0].attr.readonly)) || Accessible(areas[1..], addr, write)
  {
    if Accessible(areas, addr, write) {
      var i :| 0 <= i < |areas| && Contains(areas[i], addr) && !(write && areas[i].attr.readonly);
      assert i > 0 ==> areas[i] == areas[1..][i - 1];
    }
    if Accessible(areas[1..], addr, write) {
      var i :| 0 <= i < |areas[1..]| && Contains(areas[1..][i], addr) && !(write && areas[1..][i].attr.readonly);
      assert areas[i + 1] == areas[1..][i];
    }
  }

  ghost predicate AllAccessible(areas: seq<MemoryArea>, lo: nat, hi: nat, write: bool) {
    forall x: nat :: lo <= x < hi ==> Accessible(areas, x, write)
  }

  /** The per-area overlaps add up to the whole range exactly when every byte of it is accessible. */
  lemma {:induction false} FullSumMeansAccessible(areas: seq<MemoryArea>, lo: nat, hi: nat, write: bool)
    requires WellFormed(areas) && lo <= hi
    ensures CoveredSum(areas, lo, hi, write) <= hi - lo
    ensures CoveredSum(areas, lo, hi, write) == hi - lo <==> AllAccessible(areas, lo, hi, write)
    decreases |areas|, 1
  {
    if areas == [] {
      assert lo < hi ==> !Accessible(areas, lo, write);
    } else {
      var a, rest := areas[0], areas[1..];
      CoveredIsOverlap(a, lo, hi);
      forall x: nat
        ensures Accessible(areas, x, write)
            <==> (Contains(a, x) && !(write && a.attr.readonly)) || Accessible(rest, x, write)
      {
        AccessibleSplit(areas, x, write);
      }
      if (write && a.attr.readonly) || a.end <= lo || hi <= a.start {
        FullSumMeansAccessible(rest, lo, hi, write);
      } else {
        OverlappingHead(areas, lo, hi, write);
      }
    }
  }

  lemma OverlappingHead(areas: seq<MemoryArea>, lo: nat, hi: nat, write: bool)
    requires WellFormed(areas) && lo <= hi && areas != []
    requires !(write && areas[0].attr.readonly) && lo < areas[0].end && areas[0].start < hi
    requires forall x: nat :: Accessible(areas, x, write) <==> Contains(areas[0], x) || Accessible(areas[1..], x, write)
    ensures CoveredSum(areas, lo, hi, write) <= hi - lo
    ensures CoveredSum(areas, lo, hi, write) == hi - lo <==> AllAccessible(areas, lo, hi, write)
    decreases |areas|, 0
  {
    var a, rest := areas[0], areas[1..];
    CoveredIsOverlap(a, lo, hi);
    var mid := if hi < a.end then hi else a.end;
    CoveredSumAbove(rest, lo, mid, hi, write);
    FullSumMeansAccessible(rest, mid, hi, write);
    AccessiblePastHead(areas, lo, mid, hi, write);
  }

  lemma AccessiblePastHead(areas: seq<MemoryArea>, lo: nat, mid: nat, hi: nat, write: bool)
    requires WellFormed(areas) && areas != [] && lo < areas[0].end && areas[0].start < hi && lo <= hi
    requires mid == if hi < areas[0].end then hi else areas[0].end
    requires forall x: nat :: Accessible(areas, x, write) <==> Contains(areas[0], x) || Accessible(areas[1..], x, write)
    ensures AllAccessible(areas, lo, hi, write) <==> areas[0].start <= lo && AllAccessible(areas[1..], mid, hi, write)
  {
    var rest := areas[1..];
    if AllAccessible(areas, lo, hi, write) {
      assert !Accessible(rest, lo, write);
      assert lo < hi ==> Accessible(areas, lo, write);
      forall x: nat | mid <= x < hi
        ensures Accessible(rest, x, write)
      {
        assert Accessible(areas, x, write);
      }
    }
    if areas[0].start <= lo && AllAccessible(rest, mid, hi, write) {
      forall x: nat | lo <= x < hi
        ensures Accessible(areas, x, write)
      {
        assert x < mid ==> Contains(areas[0], x);
      }
    }
  }

  lemma FullPrefixMeansAccessible(areas: seq<MemoryArea>, n: nat, lo: nat, hi: nat, write: bool)
    requires WellFormed(areas) && lo <= hi && n <= |areas|
    requires CoveredSum(areas[..n], lo, hi, write) == hi - lo
    ensures AllAccessible(areas, lo, hi, write)
  {
    FullSumMeansAccessible(areas[..n], lo, hi, write);
    forall x: nat | lo <= x < hi
      ensures Accessible(areas, x, write)
    {
      assert Accessible(areas[..n], x, write);
    }
  }

  /** A range that reaches the end of the address space is never accessible. */
  lemma NothingAtTheTop(areas: seq<MemoryArea>, addr: nat, write: bool)
    requires WellFormed(areas) && addr >= ADDRESS_LIMIT
    ensures !Accessible(areas, addr, write)
  {
  }

  lemma {:induction false} NothingCovered(areas: seq<MemoryArea>, lo: nat, hi: nat, write: bool)
    requires hi < lo
    ensures CoveredSum(areas, lo, hi, write) == 0
  {
    if areas != [] {
      NothingCovered(areas[1..], lo, hi, write);
    }
  }

  /** What the tests accept: `total` bytes at `ptr` that are all accessible; without bytes, any set with an area. */
  ghost predicate Accepts(areas: seq<MemoryArea>, ptr: nat, total: nat, write: bool) {
    if total == 0 then areas != [] else AllAccessible(areas, ptr, ptr + total, write)
  }

  /**
   `MemorySet::check_read_array` and `check_write_array` over `count` elements of `size` bytes.
   The loop only adds up overlaps and stops at the first equal sum, and both the size and the end of
   the range wrap; it accepts exactly when all bytes of the wrapped size are accessible.
   */
  method CheckArray(areas: seq<MemoryArea>, ptr: nat, size: nat, count: nat, write: bool) returns (ok: bool)
    requires WellFormed(areas) && ptr < TWO_64
    ensures ok <==> Accepts(areas, ptr, Usize(size * count), write)
  {
    hide Covered, CoveredSum, WellFormed, Accepts, Usize;
    var total: nat := Usize(size * count);
    var hi: nat := Usize(ptr + size * count);
    WrappedEnd(ptr, size * count);
    var validSize := 0;
    NoSum(ptr, hi, write);
    for i := 0 to |areas|
      invariant validSize == CoveredSum(areas[..i], ptr, hi, write)
      invariant i > 0 ==> validSize != total
    {
      assert areas[..i + 1] == areas[..i] + [areas[i]];
      CoveredSumAppend(areas[..i], areas[i], ptr, hi, write);
      validSize := validSize + Covered(areas[i], ptr, hi, write);
      if validSize == total {
        AcceptedSum(areas, i + 1, ptr, total, hi, write);
        return true;
      }
    }
    assert areas[..|areas|] == areas;
    RefusedSum(areas, ptr, total, hi, write);
    return false;
  }

  lemma NoSum(ptr: nat, hi: nat, write: bool)
    ensures CoveredSum([], ptr, hi, write) == 0
  {
  }

  lemma WrappedEnd(ptr: nat, bytes: nat)
    requires ptr < TWO_64
    ensures Usize(ptr + bytes) == if ptr + Usize(bytes) < TWO_64 then ptr + Usize(bytes) else ptr + Usize(bytes) - TWO_64
  {
  }

  lemma AcceptedSum(areas: seq<MemoryArea>, n: nat, ptr: nat, total: nat, hi: nat, write: bool)
    requires WellFormed(areas) && 1 <= n <= |areas| && total < TWO_64
    requires hi == if ptr + total < TWO_64 then ptr + total else ptr + total - TWO_64
    requires CoveredSum(areas[..n], ptr, hi, write) == total
    ensures Accepts(areas, ptr, total, write)
  {
    if hi < ptr {
      NothingCovered(areas[..n], ptr, hi, write);
    } else if total > 0 {
      FullPrefixMeansAccessible(areas, n, ptr, hi, write);
    }
  }

  lemma RefusedSum(areas: seq<MemoryArea>, ptr: nat, total: nat, hi: nat, write: bool)
    requires WellFormed(areas) && total < TWO_64
    requires hi == if ptr + total < TWO_64 then ptr + total else ptr + total - TWO_64
    requires areas == [] || CoveredSum(areas, ptr, hi, write) != total
    ensures !Accepts(areas, ptr, total, write)
  {
    if total > 0 {
      if ptr + total < TWO_64 {
        FullSumMeansAccessible(areas, ptr, hi, write);
      } else {
        NothingAtTheTop(areas, ptr + total - 1, write);
      }
    }
  }

  /** For every set and address, `bytes` bytes are accepted exactly when they are all accessible. */
  ghost predicate TestsExactly(bytes: nat) {
    forall areas, ptr: nat, write :: IsQuery(areas, ptr, write) ==>
      (Accepts(areas, ptr, Usize(bytes), write) <==> AllAccessible(areas, ptr, ptr + bytes, write))
  }

  predicate IsQuery(areas: seq<MemoryArea>, ptr: nat, write: bool) {
    WellFormed(areas) && ptr < TWO_64
  }

  /**
   The tests are exact for a non-empty array if and only if its true size fits 64 bits, or what is left
   of the size is more than any set can map. Arrays of bytes always fit.
   */
  lemma TestsExactlyIff(bytes: nat)
    requires bytes > 0
    ensures TestsExactly(bytes) <==> bytes < TWO_64 || Usize(bytes) > ADDRESS_LIMIT
  {
    hide AllAccessible, WellFormed;
    var total := Usize(bytes);
    if bytes < TWO_64 || total > ADDRESS_LIMIT {
      forall areas, ptr: nat, write | IsQuery(areas, ptr, write)
        ensures Accepts(areas, ptr, total, write) <==> AllAccessible(areas, ptr, ptr + bytes, write)
      {
        if bytes >= TWO_64 {
          TooLarge(areas, ptr, bytes, write);
          TooLarge(areas, ptr, total, write);
        }
      }
    } else {
      WrappedIsAccepted(bytes);
    }
  }

  lemma TooLarge(areas: seq<MemoryArea>, ptr: nat, bytes: nat, write: bool)
    requires WellFormed(areas) && bytes > ADDRESS_LIMIT
    ensures !AllAccessible(areas, ptr, ptr + bytes, write)
  {
    NothingAtTheTop(areas, ptr + bytes - 1, write);
  }

  /** One area that holds all that is left of the size is enough to accept far too large an array. */
  lemma WrappedIsAccepted(bytes: nat)
    requires bytes >= TWO_64 && Usize(bytes) <= ADDRESS_LIMIT
    ensures !TestsExactly(bytes)
  {
    hide Usize, WellFormed, AllAccessible;
    var total: nat := Usize(bytes);
    var areas := OneArea(total);
    TooLarge(areas, 0, bytes, true);
    assert IsQuery(areas, 0, true);
    assert Accepts(areas, 0, total, true);
  }

  /** An area from address 0 that holds `total` bytes. */
  lemma OneArea(total: nat) returns (areas: seq<MemoryArea>)
    requires total <= ADDRESS_LIMIT
    ensures areas != [] && WellFormed(areas) && AllAccessible(areas, 0, total, true)
  {
    hide RoundUp;
    var end: nat := if total == 0 then PAGE_SIZE else RoundUp(total);
    RoundUpAligned(total);
    RoundUpLimit(total);
    areas := [MemoryArea(0, end, MemoryAttr(true, false, false, 0), Delay)];
    forall x: nat | x < total ensures Accessible(areas, x, true) {
      assert Contains(areas[0], x);
    }
  }

  lemma RoundUpLimit(addr: nat)
    requires addr <= ADDRESS_LIMIT
    ensures RoundUp(addr) <= ADDRESS_LIMIT
  {
  }

  /** 2^60 elements of 16 bytes wrap to nothing and are accepted by any set with an area. */
  lemma WrappedArray(areas: seq<MemoryArea>, ptr: nat)
    requires WellFormed(areas) && areas != [] && ptr < TWO_64
    ensures var size, count := 16, 0x1000_0000_0000_0000;
            Accepts(areas, ptr, Usize(size * count), true) && !AllAccessible(areas, ptr, ptr + size * count, true)
  {
    TooLarge(areas, ptr, TWO_64, true);
  }

  // ---------------------------------------------------------------- free areas

  /** The first of the rounded-up candidates at which `len` bytes are free. */
  function FirstFree(areas: seq<MemoryArea>, candidates: seq<nat>, len: nat): Option<nat>
    requires WellFormed(areas) && 1 <= len
  {
    if candidates == [] then None
    else
      var addr := RoundUp(candidates[0]);
      if TestFree(areas, addr, addr + len) then Some(addr) else FirstFree(areas, candidates[1..], len)
  }

  /** The addresses tried: the hint, then the end of each area. */
  function Candidates(areas: seq<MemoryArea>, hint: nat): (c: seq<nat>)
    ensures |c| == |areas| + 1 && c[0] == hint
    ensures forall i :: 0 <= i < |areas| ==> c[i + 1] == areas[i].end
  {
    [hint] + seq(|areas|, i requires 0 <= i < |areas| => areas[i].end)
  }

  /** `MemorySet::find_free_area`. */
  function FindFreeArea(areas: seq<MemoryArea>, hint: nat, len: nat): Option<nat>
    requires WellFormed(areas) && 1 <= len
  {
    FirstFree(areas, Candidates(areas, hint), len)
  }

  lemma RoundUpAligned(addr: nat)
    ensures Aligned(RoundUp(addr)) && addr <= RoundUp(addr) < addr + PAGE_SIZE
    ensures Aligned(addr) ==> RoundUp(addr) == addr
  {
  }

  lemma {:induction false} FirstFreeFinds(areas: seq<MemoryArea>, candidates: seq<nat>, len: nat, k: nat)
    requires WellFormed(areas) && 1 <= len && k < |candidates|
    requires TestFree(areas, RoundUp(candidates[k]), RoundUp(candidates[k]) + len)
    ensures var r := FirstFree(areas, candidates, len);
            r.Some? && Aligned(r.value) && TestFree(areas, r.value, r.value + len)
  {
    hide Overlaps, RoundUp, Aligned;
    var addr := RoundUp(candidates[0]);
    RoundUpAligned(candidates[0]);
    if !TestFree(areas, addr, addr + len) {
      FirstFreeFinds(areas, candidates[1..], len, k - 1);
    }
  }

  /** The end of the last area is always free, so the search cannot fail. */
  lemma LastEndIsFree(areas: seq<MemoryArea>, len: nat)
    requires WellFormed(areas) && 1 <= len && areas != []
    ensures var end := areas[|areas| - 1].end; RoundUp(end) == end && TestFree(areas, end, end + len)
  {
    var end := areas[|areas| - 1].end;
    assert WellFormedArea(areas[|areas| - 1]);
    forall i | 0 <= i < |areas|
      ensures !Overlaps(areas[i], end, end + len)
    {
      assert i < |areas| - 1 ==> areas[i].end <= areas[|areas| - 1].start;
      OverlapsIff(areas[i], end, end + len);
    }
  }

  lemma FindFreeAreaFinds(areas: seq<MemoryArea>, hint: nat, len: nat)
    requires WellFormed(areas) && 1 <= len
    ensures var r := FindFreeArea(areas, hint, len);
            r.Some? && Aligned(r.value) && TestFree(areas, r.value, r.value + len)
  {
    hide FirstFree, RoundUp, Aligned, WellFormed, Overlaps;
    var c := Candidates(areas, hint);
    if areas == [] {
      FirstFreeFinds(areas, c, len, 0);
    } else {
      LastEndIsFree(areas, len);
      assert c[|areas|] == areas[|areas| - 1].end;
      FirstFreeFinds(areas, c, len, |areas|);
    }
  }

  /** The answer is one of the candidates; if none of them overflows, it does not. */
  lemma {:induction false} FirstFreeInRange(areas: seq<MemoryArea>, candidates: seq<nat>, len: nat)
    requires WellFormed(areas) && 1 <= len
    requires forall i :: 0 <= i < |candidates| ==> RoundUp(candidates[i]) + len <= ADDRESS_LIMIT
    ensures var r := FirstFree(areas, candidates, len); r.Some? ==> r.value + len <= ADDRESS_LIMIT
  {
    hide RoundUp;
    if candidates != [] {
      FirstFreeInRange(areas, candidates[1..], len);
    }
  }

  lemma FindFreeAreaInRange(areas: seq<MemoryArea>, hint: nat, len: nat)
    requires WellFormed(areas) && 1 <= len && RoundUp(hint) + len <= ADDRESS_LIMIT
    requires forall i :: 0 <= i < |areas| ==> areas[i].end + len <= ADDRESS_LIMIT
    ensures var r := FindFreeArea(areas, hint, len); r.Some? ==> r.value + len <= ADDRESS_LIMIT
  {
    hide RoundUp;
    var c := Candidates(areas, hint);
    forall i | 0 <= i < |c| ensures RoundUp(c[i]) + len <= ADDRESS_LIMIT {
      if i > 0 {
        assert WellFormedArea(areas[i - 1]);
        RoundUpAligned(areas[i - 1].end);
      }
    }
    FirstFreeInRange(areas, c, len);
  }

  /** Rounding the end of a range up to a page changes nothing about being free. */
  lemma RoundingKeepsFree(areas: seq<MemoryArea>, start: nat, end: nat)
    requires WellFormed(areas) && start < end
    ensures TestFree(areas, start, RoundUp(end)) <==> TestFree(areas, start, end)
  {
    assert PageOf(RoundUp(end) - 1) == PageOf(end - 1);
    forall i | 0 <= i < |areas|
      ensures Overlaps(areas[i], start, RoundUp(end)) <==> Overlaps(areas[i], start, end)
    {
    }
  }

  /** Pushing `len` bytes at a free aligned address passes the overlap assertion and keeps the order. */
  lemma FreeIsPushable(areas: seq<MemoryArea>, area: MemoryArea, len: nat)
    requires WellFormed(areas) && 1 <= len && Aligned(area.start) && area.end == RoundUp(area.start + len)
    requires TestFree(areas, area.start, area.start + len)
    ensures TestFree(areas, area.start, area.end)
    ensures area.end <= ADDRESS_LIMIT ==> WellFormed(Insert(areas, area))
  {
    RoundingKeepsFree(areas, area.start, area.start + len);
    RoundUpAligned(area.start + len);
    if area.end <= ADDRESS_LIMIT {
      InsertKeepsOrder(areas, area);
    }
  }

  /**
   The search always finds a page-aligned free address; it is the rounded-up hint whenever that is
   free; and pushing an area of that length there passes the overlap assertion and keeps the order.
   */
  lemma FindFreeAreaSucceeds(areas: seq<MemoryArea>, hint: nat, len: nat, area: MemoryArea)
    requires WellFormed(areas) && 1 <= len
    ensures FindFreeArea(areas, hint, len).Some?
    ensures TestFree(areas, RoundUp(hint), RoundUp(hint) + len) ==> FindFreeArea(areas, hint, len).value == RoundUp(hint)
    ensures Aligned(FindFreeArea(areas, hint, len).value)
    ensures RoundUp(hint) + len <= ADDRESS_LIMIT && (forall i :: 0 <= i < |areas| ==> areas[i].end + len <= ADDRESS_LIMIT) ==>
              FindFreeArea(areas, hint, len).value + len <= ADDRESS_LIMIT
    ensures area.start == FindFreeArea(areas, hint, len).value && area.end == RoundUp(area.start + len) ==>
              && TestFree(areas, area.start, area.end)
              && (area.end <= ADDRESS_LIMIT ==> WellFormed(Insert(areas, area)))
  {
    FindFreeAreaFinds(areas, hint, len);
    if RoundUp(hint) + len <= ADDRESS_LIMIT && forall i :: 0 <= i < |areas| ==> areas[i].end + len <= ADDRESS_LIMIT {
      FindFreeAreaInRange(areas, hint, len);
    }
    if area.start == FindFreeArea(areas, hint, len).value && area.end == RoundUp(area.start + len) {
      FreeIsPushable(areas, area, len);
    }
  }
}
