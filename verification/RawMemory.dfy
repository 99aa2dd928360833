/** Byte-addressed memory with little-endian 64-bit words. */
module RawMemory {
  import opened Machine

  type Mem = map<nat, byte>

  const WORD_SIZE: nat := 8

  /** Copy `bytes` to `addr` and up. */
  function Store(mem: Mem, addr: nat, bytes: seq<byte>): (r: Mem)
    ensures At(r, addr, bytes)
    ensures SameOutside(mem, r, addr, addr + |bytes|)
    decreases |bytes|
  {
    if bytes == [] then mem else Store(mem[addr := bytes[0]], addr + 1, bytes[1..])
  }

  /** `bytes` lie at `addr` and up. */
  ghost predicate At(mem: Mem, addr: nat, bytes: seq<byte>) {
    forall x :: addr <= x < addr + |bytes| ==> x in mem && mem[x] == bytes[x - addr]
  }

  /** Two memories differ in `[lo, hi)` at most. */
  ghost predicate SameOutside(mem: Mem, mem': Mem, lo: nat, hi: nat) {
    forall x: nat :: !(lo <= x < hi) ==> (x in mem' <==> x in mem) && (x in mem ==> mem'[x] == mem[x])
  }

  lemma SameOutsideWider(m0: Mem, m1: Mem, m2: Mem, lo: nat, mid: nat, hi: nat)
    requires SameOutside(m0, m1, mid, hi) && SameOutside(m1, m2, lo, mid) && lo <= mid <= hi
    ensures SameOutside(m0, m2, lo, hi)
  {
  }

  /** Bytes at or above the written range stay. */
  lemma AtKept(mem: Mem, mem': Mem, lo: nat, hi: nat, addr: nat, bytes: seq<byte>)
    requires At(mem, addr, bytes) && SameOutside(mem, mem', lo, hi) && hi <= addr
    ensures At(mem', addr, bytes)
  {
  }

  lemma AtConcat(mem: Mem, addr: nat, a: seq<byte>, b: seq<byte>)
    ensures At(mem, addr, a + b) <==> At(mem, addr, a) && At(mem, addr + |a|, b)
  {
    if At(mem, addr, a + b) {
      forall x | addr <= x < addr + |a| ensures x in mem && mem[x] == a[x - addr] {
        assert (a + b)[x - addr] == a[x - addr];
      }
      forall x | addr + |a| <= x < addr + |a| + |b| ensures x in mem && mem[x] == b[x - addr - |a|] {
        assert (a + b)[x - addr] == b[x - addr - |a|];
      }
    }
  }

  // --------------------------------------------------------------------- words

  function Pow256(n: nat): nat {
    if n == 0 then 1 else 256 * Pow256(n - 1)
  }

  lemma Pow256Is64Bits()
    ensures Pow256(8) == TWO_64
  {
    assert Pow256(4) == TWO_32;
    assert Pow256(8) == 256 * (256 * (256 * (256 * Pow256(4))));
  }

  /** The low `n` bytes of `w`, lowest first. */
  function LeBytes(w: nat, n: nat): (r: seq<byte>)
    ensures |r| == n
  {
    if n == 0 then [] else [w % 256] + LeBytes(w / 256, n - 1)
  }

  function LeValue(bytes: seq<byte>): nat {
    if bytes == [] then 0 else bytes[0] + 256 * LeValue(bytes[1..])
  }

  lemma {:induction false} LeRoundTrip(w: nat, n: nat)
    requires w < Pow256(n)
    ensures LeValue(LeBytes(w, n)) == w
  {
    if n > 0 {
      LeRoundTrip(w / 256, n - 1);
      assert LeBytes(w, n)[1..] == LeBytes(w / 256, n - 1);
    }
  }

  function LoadByte(mem: Mem, addr: nat): byte {
    if addr in mem then mem[addr] else 0
  }

  function LoadBytes(mem: Mem, addr: nat, n: nat): (r: seq<byte>)
    ensures |r| == n
    decreases n
  {
    if n == 0 then [] else [LoadByte(mem, addr)] + LoadBytes(mem, addr + 1, n - 1)
  }

  lemma {:induction false} LoadStored(mem: Mem, addr: nat, bytes: seq<byte>)
    requires At(mem, addr, bytes)
    ensures LoadBytes(mem, addr, |bytes|) == bytes
    decreases |bytes|
  {
    if bytes != [] {
      LoadStored(mem, addr + 1, bytes[1..]);
    }
  }

  function LoadWord(mem: Mem, addr: nat): nat {
    LeValue(LoadBytes(mem, addr, WORD_SIZE))
  }

  /** Consecutive words as bytes. */
  function WordBytes(ws: seq<nat>): (r: seq<byte>)
    ensures |r| == WORD_SIZE * |ws|
  {
    if ws == [] then [] else LeBytes(ws[0], WORD_SIZE) + WordBytes(ws[1..])
  }

  /** `ws` lie at `addr` and up. */
  ghost predicate WordsAt(mem: Mem, addr: nat, ws: seq<nat>) {
    At(mem, addr, WordBytes(ws))
  }

  lemma {:induction false} WordBytesConcat(a: seq<nat>, b: seq<nat>)
    ensures WordBytes(a + b) == WordBytes(a) + WordBytes(b)
  {
    if a == [] {
      assert a + b == b;
    } else {
      hide LeBytes;
      WordBytesConcat(a[1..], b);
      assert (a + b)[1..] == a[1..] + b;
      var first, rest, more := LeBytes(a[0], WORD_SIZE), WordBytes(a[1..]), WordBytes(b);
      assert first + (rest + more) == (first + rest) + more;
    }
  }

  lemma WordsAtConcat(mem: Mem, addr: nat, a: seq<nat>, b: seq<nat>)
    ensures WordsAt(mem, addr, a + b) <==> WordsAt(mem, addr, a) && WordsAt(mem, addr + WORD_SIZE * |a|, b)
  {
    WordBytesConcat(a, b);
    AtConcat(mem, addr, WordBytes(a), WordBytes(b));
  }

  /** The first word at `addr` reads back as itself. */
  lemma LoadFirstWord(mem: Mem, addr: nat, ws: seq<nat>)
    requires ws != [] && ws[0] < TWO_64 && WordsAt(mem, addr, ws)
    ensures LoadWord(mem, addr) == ws[0] && WordsAt(mem, addr + WORD_SIZE, ws[1..])
  {
    var first := LeBytes(ws[0], WORD_SIZE);
    AtConcat(mem, addr, first, WordBytes(ws[1..]));
    LoadStored(mem, addr, first);
    Pow256Is64Bits();
    LeRoundTrip(ws[0], WORD_SIZE);
  }
}
