/** `Sigset`: a set of the signals 1..64 in one 64-bit word. */
module Sigsets {
  /** A signal number; the shift by 64 wraps, so signal 64 uses bit 0. */
  type Signal = s: bv64 | 1 <= s && s <= 64 witness 1

  type Sigset = bv64

  const RTMIN: bv64 := 32

  predicate IsStandard(s: Signal) {
    s < RTMIN
  }

  /** The bit of a signal: the low six bits of the number are the shift amount. */
  function Bit(s: Signal): Sigset {
    1 << (s & 63)
  }

  predicate Contains(w: Sigset, s: Signal) {
    (w >> (s & 63)) & 1 != 0
  }

  function Add(w: Sigset, s: Signal): Sigset {
    w | Bit(s)
  }

  function AddSet(w: Sigset, other: Sigset): Sigset {
    w | other
  }

  function Remove(w: Sigset, s: Signal): Sigset {
    w ^ (w & Bit(s))
  }

  function RemoveSet(w: Sigset, other: Sigset): Sigset {
    w ^ (w & other)
  }

  /** The set a word stands for. */
  ghost function Members(w: Sigset): iset<Signal> {
    iset s: Signal | Contains(w, s)
  }

  lemma EmptyHasNone(s: Signal)
    ensures !Contains(0, s)
  {
  }

  lemma BitAt(s: Signal, t: Signal)
    ensures Contains(Bit(s), t) <==> s == t
  {
    if s != t {
      OtherBit(s & 63, t & 63);
    }
  }

  lemma OtherBit(j: bv64, k: bv64)
    requires j < 64 && k < 64 && j != k
    ensures ((1 << j) >> k) & 1 as bv64 == 0
  {
  }

  lemma InLeft(w: Sigset, v: Sigset, s: Signal)
    requires Contains(w, s)
    ensures Contains(w | v, s)
  {
  }

  lemma InRight(w: Sigset, v: Sigset, s: Signal)
    requires Contains(v, s)
    ensures Contains(w | v, s)
  {
  }

  lemma InNeither(w: Sigset, v: Sigset, s: Signal)
    requires !Contains(w, s) && !Contains(v, s)
    ensures !Contains(w | v, s)
  {
  }

  lemma NotInFirst(w: Sigset, v: Sigset, s: Signal)
    requires !Contains(w, s)
    ensures !Contains(w ^ (w & v), s)
  {
  }

  lemma InSecond(w: Sigset, v: Sigset, s: Signal)
    requires Contains(v, s)
    ensures !Contains(w ^ (w & v), s)
  {
  }

  lemma InFirstOnly(w: Sigset, v: Sigset, s: Signal)
    requires Contains(w, s) && !Contains(v, s)
    ensures Contains(w ^ (w & v), s)
  {
  }

  lemma InBoth(w: Sigset, v: Sigset, s: Signal)
    requires Contains(w, s) && Contains(v, s)
    ensures !Contains(w ^ v, s)
  {
  }

  lemma OutOfBoth(w: Sigset, v: Sigset, s: Signal)
    requires !Contains(w, s) && !Contains(v, s)
    ensures !Contains(w ^ v, s)
  {
  }

  lemma UnionAt(w: Sigset, other: Sigset, t: Signal)
    ensures Contains(AddSet(w, other), t) <==> Contains(w, t) || Contains(other, t)
  {
    hide Contains;
    if Contains(w, t) {
      InLeft(w, other, t);
    } else if Contains(other, t) {
      InRight(w, other, t);
    } else {
      InNeither(w, other, t);
    }
  }

  lemma DifferenceAt(w: Sigset, other: Sigset, t: Signal)
    ensures Contains(RemoveSet(w, other), t) <==> Contains(w, t) && !Contains(other, t)
  {
    hide Contains;
    if Contains(other, t) {
      InSecond(w, other, t);
    } else if Contains(w, t) {
      InFirstOnly(w, other, t);
    } else {
      NotInFirst(w, other, t);
    }
  }

  lemma AddedAt(w: Sigset, s: Signal, t: Signal)
    ensures Contains(Add(w, s), t) <==> s == t || Contains(w, t)
  {
    hide Contains, Bit;
    UnionAt(w, Bit(s), t);
    BitAt(s, t);
  }

  lemma RemovedAt(w: Sigset, s: Signal, t: Signal)
    ensures Contains(Remove(w, s), t) <==> s != t && Contains(w, t)
  {
    hide Contains, Bit;
    DifferenceAt(w, Bit(s), t);
    BitAt(s, t);
  }

  /** The word operations are the set operations on signals 1..64. */
  lemma WordRefinesSet(w: Sigset, other: Sigset, s: Signal)
    ensures Members(0) == iset{}
    ensures Members(Add(w, s)) == Members(w) + iset{s} && Members(Remove(w, s)) == Members(w) - iset{s}
    ensures Members(AddSet(w, other)) == Members(w) + Members(other)
    ensures Members(RemoveSet(w, other)) == Members(w) - Members(other)
  {
    hide Contains, Add, Remove, AddSet, RemoveSet;
    forall t: Signal
      ensures !Contains(0, t)
      ensures Contains(Add(w, s), t) <==> s == t || Contains(w, t)
      ensures Contains(Remove(w, s), t) <==> s != t && Contains(w, t)
      ensures Contains(AddSet(w, other), t) <==> Contains(w, t) || Contains(other, t)
      ensures Contains(RemoveSet(w, other), t) <==> Contains(w, t) && !Contains(other, t)
    {
      EmptyHasNone(t);
      AddedAt(w, s, t);
      RemovedAt(w, s, t);
      UnionAt(w, other, t);
      DifferenceAt(w, other, t);
    }
  }

  /** Signal 64 is kept in bit 0, which no other signal uses. */
  lemma LastSignalIsBitZero(w: Sigset, s: Signal)
    ensures Contains(w, 64) <==> w & 1 == 1
    ensures s != 64 ==> Add(w, s) & 1 == w & 1 && Remove(w, s) & 1 == w & 1
  {
  }

  /** Every word stands for its own set: no bit goes unused. */
  lemma WordIsItsSet(w: Sigset, v: Sigset)
    requires Members(w) == Members(v)
    ensures w == v
  {
    hide Contains;
    if w != v {
      DifferingWords(w, v);
      var s := SomeMember(w ^ v);
      assert s in Members(w) <==> s in Members(v);
      if Contains(w, s) {
        InBoth(w, v, s);
      } else {
        OutOfBoth(w, v, s);
      }
    }
  }

  lemma DifferingWords(w: Sigset, v: Sigset)
    requires w != v
    ensures w ^ v != 0
  {
  }

  /** The lowest `n` bits of `w` are clear. */
  predicate LowClear(w: Sigset, n: bv64)
    requires n < 64
  {
    w & ((1 << n) - 1) == 0
  }

  predicate BitSet(w: Sigset, n: bv64)
    requires n < 64
  {
    (w >> n) & 1 != 0
  }

  lemma NextBitClear(w: Sigset, n: bv64)
    requires n < 63 && LowClear(w, n) && !BitSet(w, n)
    ensures LowClear(w, n + 1)
  {
  }

  lemma LastBitSet(w: Sigset)
    requires w != 0 && LowClear(w, 63)
    ensures BitSet(w, 63)
  {
  }

  lemma NothingBelow(w: Sigset)
    ensures LowClear(w, 0)
  {
  }

  lemma BitIsMember(w: Sigset, n: bv64)
    requires n < 64 && BitSet(w, n)
    ensures Contains(w, if n == 0 then 64 else n)
  {
  }

  /** A word other than zero has a member. */
  lemma SomeMember(w: Sigset) returns (s: Signal)
    requires w != 0
    ensures Contains(w, s)
  {
    hide LowClear, BitSet, Contains;
    NothingBelow(w);
    var n: bv64 := 0;
    while !BitSet(w, n)
      invariant n < 64 && LowClear(w, n)
      decreases 64 - n
    {
      assert n < 63 by {
        if n == 63 {
          LastBitSet(w);
        }
      }
      NextBitClear(w, n);
      n := n + 1;
    }
    BitIsMember(w, n);
    s := if n == 0 then 64 else n;
  }
}
