/**
 The scheduler's fixed-point weights: scaling a time by a ratio of weights, virtual time, and the
 slices of one period. All machine integers are 64-bit and wrap as in a release build.
 */
module FairShare {
  import opened Machine

  const WMULT_CONST: nat := 0xFFFF_FFFF
  const NICE_0_WEIGHT: nat := 1024
  const TWO_42: int := 0x400_0000_0000
  const TWO_54: int := 0x40_0000_0000_0000
  const TWO_96: int := 0x1_0000_0000_0000_0000_0000_0000
  const SCHED_LATENCY: nat := 6_000_000
  const SCHED_MIN_GRANULARITY: nat := 750_000
  const SCHED_NR_LATENCY: nat := 8

  // ---------------------------------------------------------------- arithmetic

  lemma MulMono(a: nat, b: nat, c: nat)
    requires a <= b
    ensures a * c <= b * c
  {
  }

  lemma DivUnique(x: nat, d: nat, q: nat)
    requires d > 0 && d * q <= x < d * (q + 1)
    ensures x / d == q
  {
    var r := x / d;
    if r < q {
      MulMono(r + 1, q, d);
    } else if r > q {
      MulMono(q + 1, r, d);
    }
  }

  lemma DivBounds(x: nat, d: nat)
    requires d > 0
    ensures d * (x / d) <= x < d * (x / d + 1)
  {
  }

  lemma DivMono(x: nat, y: nat, d: nat)
    requires d > 0 && x <= y
    ensures x / d <= y / d
  {
    DivBounds(x, d);
    DivBounds(y, d);
    if x / d > y / d {
      MulMono(y / d + 1, x / d, d);
    }
  }

  lemma DivAntitone(x: nat, d: nat, e: nat)
    requires 0 < d <= e
    ensures x / e <= x / d
  {
    DivBounds(x, d);
    DivBounds(x, e);
    if x / e > x / d {
      MulMono(x / d + 1, x / e, d);
      MulMono(d, e, x / e);
    }
  }

  lemma DivScale(a: nat, b: nat, c: nat)
    requires b > 0 && c > 0
    ensures b * c > 0 && (a * c) / (b * c) == a / b
  {
    var q := a / b;
    DivBounds(a, b);
    MulMono(b * q, a, c);
    MulMono(a + 1, b * (q + 1), c);
    assert b * q * c == (b * c) * q;
    assert b * (q + 1) * c == (b * c) * (q + 1);
    assert (a + 1) * c == a * c + c;
    assert b * c > 0;
    DivUnique(a * c, b * c, q);
  }

  function Pow2(k: nat): (r: nat)
    ensures r > 0
  {
    if k == 0 then 1 else 2 * Pow2(k - 1)
  }

  lemma {:induction false} Pow2Add(j: nat, k: nat)
    ensures Pow2(j + k) == Pow2(j) * Pow2(k)
  {
    if j > 0 {
      Pow2Add(j - 1, k);
    }
  }

  lemma Pow2At32()
    ensures Pow2(32) == TWO_32 && Pow2(10) == 1024
  {
    assert Pow2(8) == 256;
    assert Pow2(10) == 1024;
    Pow2Add(8, 8);
    Pow2Add(16, 16);
  }

  lemma {:induction false} Pow2Mono(j: nat, k: nat)
    requires j <= k
    ensures Pow2(j) <= Pow2(k)
  {
    if j < k {
      Pow2Mono(j, k - 1);
    }
  }

  // ---------------------------------------------------------------- keeping the top 32 bits

  /** How often `x` must be halved to fit 32 bits. */
  function Halvings(x: nat): nat {
    if x < TWO_32 then 0 else 1 + Halvings(x / 2)
  }

  /** What halving leaves of `x`. */
  function Shrunk(x: nat): (r: nat)
    ensures r < TWO_32
  {
    if x < TWO_32 then x else Shrunk(x / 2)
  }

  /** `x` with all but its top 32 bits cleared. */
  function Rounded(x: nat): nat {
    Shrunk(x) * Pow2(Halvings(x))
  }

  lemma {:induction false} RoundedBounds(x: nat)
    ensures Rounded(x) <= x < Rounded(x) + Pow2(Halvings(x))
    ensures Halvings(x) > 0 ==> 0x8000_0000 * Pow2(Halvings(x)) <= Rounded(x)
  {
    if x >= TWO_32 {
      RoundedBounds(x / 2);
      RoundedHalf(x);
    }
  }

  lemma RoundedHalf(x: nat)
    requires x >= TWO_32
    ensures Rounded(x) == 2 * Rounded(x / 2)
  {
    assert Shrunk(x) * (2 * Pow2(Halvings(x / 2))) == 2 * (Shrunk(x / 2) * Pow2(Halvings(x / 2)));
  }

  lemma {:induction false} HalvingsMono(x: nat, y: nat)
    requires x <= y
    ensures Halvings(x) <= Halvings(y)
  {
    if x >= TWO_32 {
      HalvingsMono(x / 2, y / 2);
    }
  }

  lemma {:induction false} ShrunkMono(x: nat, y: nat)
    requires x <= y && Halvings(x) == Halvings(y)
    ensures Shrunk(x) <= Shrunk(y)
  {
    if x >= TWO_32 {
      ShrunkMono(x / 2, y / 2);
    }
  }

  /** Clearing low bits keeps the order. */
  lemma RoundedMono(x: nat, y: nat)
    requires x <= y
    ensures Rounded(x) <= Rounded(y)
  {
    HalvingsMono(x, y);
    if Halvings(x) == Halvings(y) {
      ShrunkMono(x, y);
      MulMono(Shrunk(x), Shrunk(y), Pow2(Halvings(x)));
    } else {
      RoundedBounds(y);
      Pow2Mono(Halvings(x) + 1, Halvings(y));
      assert 2 * Pow2(Halvings(x)) <= Pow2(Halvings(y));
      MulMono(Shrunk(x), TWO_32, Pow2(Halvings(x)));
      assert TWO_32 * Pow2(Halvings(x)) == 0x8000_0000 * (2 * Pow2(Halvings(x)));
    }
  }

  lemma {:induction false} HalvingsBound(x: nat, k: nat)
    requires x < TWO_32 * Pow2(k)
    ensures Halvings(x) <= k
  {
    if x >= TWO_32 {
      assert k > 0;
      HalvingsBound(x / 2, k - 1);
    }
  }

  // ---------------------------------------------------------------- weights

  /** `LoadWeight::inv_weight`. */
  function InvWeight(weight: nat): (inv: nat)
    ensures 1 <= inv <= WMULT_CONST
  {
    if weight == 0 then WMULT_CONST
    else if weight <= WMULT_CONST then InvOf(weight)
    else 1
  }

  function InvOf(weight: nat): (inv: nat)
    requires 1 <= weight <= WMULT_CONST
    ensures 1 <= inv <= WMULT_CONST
    ensures TWO_32 - weight <= inv * weight < TWO_32
  {
    DivAntitone(WMULT_CONST, weight, WMULT_CONST);
    DivAntitone(WMULT_CONST, 1, weight);
    DivBounds(WMULT_CONST, weight);
    WMULT_CONST / weight
  }

  /** The factor, in units of 2^-32, by which `CalcDelta` multiplies. */
  function Factor(weight: nat, lw: nat): nat {
    var f := Shrunk(weight) * InvWeight(lw);
    Shrunk(f) * Pow2(Halvings(weight) + Halvings(f))
  }

  /** What callers guarantee: the fixed weight of nice level 0, or a part of the total `lw`. */
  predicate Scalable(weight: nat, lw: nat) {
    weight < TWO_64 && lw < TWO_64 && (weight <= lw || weight == NICE_0_WEIGHT)
  }

  lemma ShiftStaysPositive(weight: nat, lw: nat)
    requires Scalable(weight, lw)
    ensures Halvings(weight) + Halvings(Shrunk(weight) * InvWeight(lw)) <= 32
    ensures weight < TWO_32 ==> Halvings(weight) == 0 && Shrunk(weight) == weight
    ensures weight <= lw && weight < TWO_32 ==> Halvings(weight * InvWeight(lw)) == 0
    ensures weight == NICE_0_WEIGHT ==> Halvings(weight * InvWeight(lw)) <= 10
  {
    Pow2At32();
    if weight == NICE_0_WEIGHT {
      HalvingsBound(weight * InvWeight(lw), 10);
    } else if weight < TWO_32 {
      if 1 <= lw <= WMULT_CONST {
        MulMono(weight, lw, InvOf(lw));
        assert lw * InvOf(lw) == InvOf(lw) * lw;
      }
    } else {
      HalvingsBound(weight, 32);
    }
    if weight <= lw && weight < TWO_32 && 1 <= lw <= WMULT_CONST {
      MulMono(weight, lw, InvOf(lw));
      assert lw * InvOf(lw) == InvOf(lw) * lw;
    }
  }

  /** The halvings of both loops of `calc_delta` together. */
  function AllHalvings(weight: nat, lw: nat): nat {
    Halvings(weight) + Halvings(Shrunk(weight) * InvWeight(lw))
  }

  /**
   `calc_delta`, for any weights. The result is `delta` times the factor over 2^32, cut to 64 bits, as
   long as the loops take no more than the 32 bits of shift; beyond that the shift count wraps and
   nothing is left.
   */
  method CalcDelta(delta: nat, weight: nat, lw: nat) returns (r: nat)
    requires delta < TWO_64 && weight < TWO_64 && lw < TWO_64
    ensures r == if AllHalvings(weight, lw) <= 32 then Usize(delta * Factor(weight, lw) / TWO_32) else 0
  {
    hide Pow2, Shrunk, Halvings, Usize, InvWeight, Factor;
    var fact, shift := HalveToFit(weight, 32);
    ghost var first := Halvings(weight);
    ProductFits(fact, InvWeight(lw));
    fact := Usize(fact * InvWeight(lw));
    fact, shift := HalveToFit(fact, shift);
    r := Usize(delta * fact / Pow2(shift % 128));
    ShiftCount(weight, lw, shift);
    if AllHalvings(weight, lw) <= 32 {
      FactorOverShift(delta, weight, lw, shift);
    } else {
      NothingLeft(delta, fact, shift % 128);
    }
  }

  /** The wrapped shift count after both loops, and the bits of it that a 128-bit shift uses. */
  lemma ShiftCount(weight: nat, lw: nat, shift: nat)
    requires weight < TWO_64
    requires shift == Usize(Usize(32 - Halvings(weight)) - Halvings(Shrunk(weight) * InvWeight(lw)))
    ensures AllHalvings(weight, lw) <= 64
    ensures AllHalvings(weight, lw) <= 32 ==> shift % 128 == shift == 32 - AllHalvings(weight, lw)
    ensures AllHalvings(weight, lw) > 32 ==> 96 <= shift % 128
  {
    hide Pow2, Halvings, Shrunk, InvWeight, Usize;
    AtMost32(weight);
    ProductFits(Shrunk(weight), InvWeight(lw));
    AtMost32(Shrunk(weight) * InvWeight(lw));
    WrappedCount(Halvings(weight), Halvings(Shrunk(weight) * InvWeight(lw)), shift);
  }

  lemma AtMost32(x: nat)
    requires x < TWO_64
    ensures Halvings(x) <= 32
  {
    hide Halvings, Pow2;
    Pow2At32();
    HalvingsBound(x, 32);
  }

  lemma WrappedCount(a: nat, b: nat, shift: nat)
    requires a <= 32 && b <= 32 && shift == Usize(Usize(32 - a) - b)
    ensures a + b <= 32 ==> shift % 128 == shift == 32 - a - b
    ensures a + b > 32 ==> 96 <= shift % 128
  {
    if a + b > 32 {
      assert shift == TWO_64 + 32 - a - b;
      assert TWO_64 == 128 * 0x200_0000_0000_0000;
    }
  }

  lemma NothingLeft(delta: nat, fact: nat, shift: nat)
    requires delta < TWO_64 && fact < TWO_32 && 96 <= shift
    ensures Usize(delta * fact / Pow2(shift)) == 0
  {
    hide Pow2;
    Pow2At96();
    Pow2Mono(96, shift);
    BelowTwo96(delta, fact);
    DivUnique(delta * fact, Pow2(shift), 0);
  }

  lemma Pow2At96()
    ensures Pow2(96) == TWO_96
  {
    hide Pow2;
    Pow2At32();
    Pow2Add(32, 32);
    Pow2Add(64, 32);
  }

  lemma BelowTwo96(delta: nat, fact: nat)
    requires delta < TWO_64 && fact < TWO_32
    ensures delta * fact < TWO_96
  {
    MulMono(delta, TWO_64 - 1, fact);
    MulMono(fact, TWO_32 - 1, TWO_64 - 1);
  }

  lemma FactorOverShift(delta: nat, weight: nat, lw: nat, shift: nat)
    requires shift <= 32 && shift == 32 - Halvings(weight) - Halvings(Shrunk(weight) * InvWeight(lw))
    ensures delta * Shrunk(Shrunk(weight) * InvWeight(lw)) / Pow2(shift) == delta * Factor(weight, lw) / TWO_32
  {
    hide Pow2, Shrunk, Halvings, InvWeight;
    var f := Shrunk(Shrunk(weight) * InvWeight(lw));
    ShiftIsDivision(delta * f, shift);
    assert delta * f * Pow2(32 - shift) == delta * (f * Pow2(32 - shift));
  }

  lemma UsizeFits(x: nat)
    requires x < TWO_64
    ensures Usize(x) == x
  {
  }

  lemma ProductFits(a: nat, b: nat)
    requires a < TWO_32 && b < TWO_32
    ensures a * b < TWO_64 && Usize(a * b) == a * b
  {
    hide Usize;
    MulMono(a, TWO_32 - 1, b);
    assert a * b < TWO_64;
    UsizeFits(a * b);
  }

  /** Halve until the factor fits 32 bits, shortening the shift by as much; the count wraps below zero. */
  method HalveToFit(x: nat, shift: nat) returns (fact: nat, shift': nat)
    requires shift < TWO_64
    ensures fact == Shrunk(x) && shift' == Usize(shift - Halvings(x))
  {
    fact, shift' := x, shift;
    while fact >= TWO_32
      invariant Shrunk(fact) == Shrunk(x) && Halvings(fact) <= Halvings(x)
      invariant shift' == Usize(shift - (Halvings(x) - Halvings(fact)))
    {
      fact, shift' := fact / 2, Usize(shift' - 1);
    }
  }

  lemma ShiftIsDivision(x: nat, shift: nat)
    requires shift <= 32
    ensures x / Pow2(shift) == x * Pow2(32 - shift) / TWO_32
  {
    Pow2At32();
    Pow2Add(shift, 32 - shift);
    DivScale(x, Pow2(shift), Pow2(32 - shift));
  }

  // ---------------------------------------------------------------- how exact the scaling is

  /** The result of `CalcDelta` before it is cut to 64 bits. */
  function Scaled(delta: nat, weight: nat, lw: nat): nat {
    delta * Factor(weight, lw) / TWO_32
  }

  /** The number of halvings of the product; the error of the factor is below 2 to this power. */
  function Lost(weight: nat, lw: nat): nat {
    Halvings(weight * InvWeight(lw))
  }

  lemma FactorIsRounded(weight: nat, lw: nat)
    requires weight < TWO_32
    ensures Factor(weight, lw) == Rounded(weight * InvWeight(lw))
  {
  }

  /** `factor * lw` lies between `weight * 2^32 - lw * (weight + 2^k)` and `weight * 2^32`. */
  lemma FactorBounds(weight: nat, lw: nat)
    requires weight < TWO_32 && 1 <= lw <= WMULT_CONST
    ensures Factor(weight, lw) * lw <= weight * TWO_32
    ensures weight * TWO_32 <= Factor(weight, lw) * lw + lw * (weight + Pow2(Lost(weight, lw)))
  {
    hide Halvings, Shrunk, Pow2, Factor;
    var n, inv, pow, f := weight * InvWeight(lw), InvWeight(lw), Pow2(Lost(weight, lw)), Factor(weight, lw);
    FactorIsRounded(weight, lw);
    RoundedBounds(n);
    InvBounds(lw);
    MulMono(f, n, lw);
    MulMono(n, f + pow, lw);
    MulMono(inv * lw, TWO_32, weight);
    MulMono(TWO_32 - lw, inv * lw, weight);
    Regroup(weight, lw, inv, f, pow, n);
  }

  lemma InvBounds(lw: nat)
    requires 1 <= lw <= WMULT_CONST
    ensures TWO_32 - lw <= InvWeight(lw) * lw <= TWO_32
  {
    DivBounds(WMULT_CONST, lw);
  }

  lemma Regroup(weight: nat, lw: nat, inv: nat, f: nat, pow: nat, n: nat)
    requires n == weight * inv
    ensures n * lw == inv * lw * weight && (f + pow) * lw == f * lw + pow * lw
    ensures (TWO_32 - lw) * weight == weight * TWO_32 - weight * lw && lw * (weight + pow) == weight * lw + pow * lw
  {
    assert n * lw == weight * inv * lw;
  }

  /**
   The scaled time never exceeds `delta * weight / lw`, and falls short of it by less than
   `1 + delta * (weight + 2^k) / 2^32`, where `k` halvings were needed: none when `weight <= lw`, at
   most ten for nice level 0. (Both inequalities are multiplied out.)
   */
  lemma ScaledBounds(delta: nat, weight: nat, lw: nat)
    requires Scalable(weight, lw) && 1 <= lw <= WMULT_CONST
    ensures Scaled(delta, weight, lw) * lw <= delta * weight
    ensures delta * weight * TWO_32
          < (Scaled(delta, weight, lw) + 1) * lw * TWO_32 + delta * (weight + Pow2(Lost(weight, lw))) * lw
    ensures Lost(weight, lw) <= 10
    ensures weight <= lw ==> Lost(weight, lw) == 0
  {
    hide Factor, Lost, Pow2, Halvings, Shrunk;
    var f, q, pow := Factor(weight, lw), Scaled(delta, weight, lw), Pow2(Lost(weight, lw));
    LostIsSmall(weight, lw);
    FactorBounds(weight, lw);
    DivBounds(delta * f, TWO_32);
    UpperBound(delta, f, q, weight, lw);
    LowerBound(delta, f, q, weight, lw, pow);
  }

  lemma LostIsSmall(weight: nat, lw: nat)
    requires Scalable(weight, lw) && 1 <= lw <= WMULT_CONST
    ensures weight < TWO_32 && Lost(weight, lw) <= 10 && (weight <= lw ==> Lost(weight, lw) == 0)
  {
    ShiftStaysPositive(weight, lw);
  }

  lemma Cancel(a: nat, b: nat, c: nat)
    requires a * c <= b * c && c > 0
    ensures a <= b
  {
    if a > b {
      MulMono(b + 1, a, c);
    }
  }

  lemma UpperBound(delta: nat, f: nat, q: nat, weight: nat, lw: nat)
    requires f * lw <= weight * TWO_32 && TWO_32 * q <= delta * f
    ensures q * lw <= delta * weight
  {
    MulMono(TWO_32 * q, delta * f, lw);
    MulMono(f * lw, weight * TWO_32, delta);
    assert TWO_32 * q * lw == (q * lw) * TWO_32;
    assert delta * f * lw == f * lw * delta;
    assert weight * TWO_32 * delta == (delta * weight) * TWO_32;
    Cancel(q * lw, delta * weight, TWO_32);
  }

  lemma LowerBound(delta: nat, f: nat, q: nat, weight: nat, lw: nat, pow: nat)
    requires weight * TWO_32 <= f * lw + lw * (weight + pow) && delta * f < TWO_32 * (q + 1) && lw >= 1
    ensures delta * weight * TWO_32 < (q + 1) * lw * TWO_32 + delta * (weight + pow) * lw
  {
    MulMono(weight * TWO_32, f * lw + lw * (weight + pow), delta);
    MulMono(delta * f + 1, TWO_32 * (q + 1), lw);
    assert weight * TWO_32 * delta == delta * weight * TWO_32;
    assert (f * lw + lw * (weight + pow)) * delta == delta * f * lw + delta * (weight + pow) * lw;
    assert (delta * f + 1) * lw == delta * f * lw + lw;
    assert TWO_32 * (q + 1) * lw == (q + 1) * lw * TWO_32;
  }

  /** The 64-bit result is the scaled time exactly when that fits. */
  lemma CutIffTooLarge(delta: nat, weight: nat, lw: nat)
    ensures Usize(Scaled(delta, weight, lw)) <= Scaled(delta, weight, lw)
    ensures Usize(Scaled(delta, weight, lw)) == Scaled(delta, weight, lw) <==> Scaled(delta, weight, lw) < TWO_64
  {
    hide Scaled;
  }

  // ---------------------------------------------------------------- virtual time

  /** `SchedTask::delta_fair`: virtual time for `delta` of real time at the given task weight. */
  function DeltaFair(delta: nat, weight: nat): nat {
    if weight == NICE_0_WEIGHT then delta else Usize(Scaled(delta, NICE_0_WEIGHT, weight))
  }

  lemma FactorAntitone(heavy: nat, light: nat)
    requires 1 <= light <= heavy <= WMULT_CONST
    ensures Factor(NICE_0_WEIGHT, heavy) <= Factor(NICE_0_WEIGHT, light)
  {
    hide Factor, Rounded, InvOf;
    assert InvWeight(heavy) <= InvWeight(light) by {
      InvAntitone(heavy, light);
    }
    MulMono(InvWeight(heavy), InvWeight(light), NICE_0_WEIGHT);
    RoundedMono(NICE_0_WEIGHT * InvWeight(heavy), NICE_0_WEIGHT * InvWeight(light));
    FactorIsRounded(NICE_0_WEIGHT, heavy);
    FactorIsRounded(NICE_0_WEIGHT, light);
  }

  lemma InvAntitone(heavy: nat, light: nat)
    requires 1 <= light <= heavy <= WMULT_CONST
    ensures InvWeight(heavy) <= InvWeight(light)
  {
    DivAntitone(WMULT_CONST, light, heavy);
  }

  lemma ScaledAntitone(delta: nat, heavy: nat, light: nat)
    requires 1 <= light <= heavy <= WMULT_CONST
    ensures Scaled(delta, NICE_0_WEIGHT, heavy) <= Scaled(delta, NICE_0_WEIGHT, light)
  {
    hide Factor;
    FactorAntitone(heavy, light);
    MulMono(Factor(NICE_0_WEIGHT, heavy), Factor(NICE_0_WEIGHT, light), delta);
    DivMono(delta * Factor(NICE_0_WEIGHT, heavy), delta * Factor(NICE_0_WEIGHT, light), TWO_32);
  }

  /** Any weight below that of nice level 0 has a factor of at least one. */
  lemma LighterRunsFaster(delta: nat, light: nat)
    requires 1 <= light < NICE_0_WEIGHT
    ensures delta <= Scaled(delta, NICE_0_WEIGHT, light)
  {
    hide Factor;
    FactorAntitone(1023, light);
    assert Factor(NICE_0_WEIGHT, 1023) >= TWO_32 by {
      FactorIsRounded(NICE_0_WEIGHT, 1023);
      RoundedBounds(NICE_0_WEIGHT * InvWeight(1023));
      assert InvWeight(1023) == 4198404;
      assert Halvings(4299165696) == 1;
    }
    MulMono(TWO_32, Factor(NICE_0_WEIGHT, light), delta);
    DivMono(delta * TWO_32, delta * Factor(NICE_0_WEIGHT, light), TWO_32);
    DivUnique(delta * TWO_32, TWO_32, delta);
  }

  lemma HeavierRunsSlower(delta: nat, heavy: nat)
    requires NICE_0_WEIGHT < heavy <= WMULT_CONST
    ensures Scaled(delta, NICE_0_WEIGHT, heavy) <= delta
  {
    hide Scaled, Lost, Pow2;
    ScaledBounds(delta, NICE_0_WEIGHT, heavy);
    var q := Scaled(delta, NICE_0_WEIGHT, heavy);
    if q > delta {
      MulMono(delta + 1, q, heavy);
      MulMono(NICE_0_WEIGHT, heavy, delta);
    }
  }

  /**
   A heavier task never ages faster than a lighter one, the nice-0 shortcut included, as long as the
   lighter task's virtual time fits 64 bits.
   */
  lemma HeavierNeverFaster(delta: nat, heavy: nat, light: nat)
    requires 1 <= light <= heavy <= WMULT_CONST
    requires light == NICE_0_WEIGHT || Scaled(delta, NICE_0_WEIGHT, light) < TWO_64
    ensures DeltaFair(delta, heavy) <= DeltaFair(delta, light)
  {
    hide Scaled, Usize;
    CutIffTooLarge(delta, NICE_0_WEIGHT, light);
    CutIffTooLarge(delta, NICE_0_WEIGHT, heavy);
    if heavy == NICE_0_WEIGHT && light < NICE_0_WEIGHT {
      LighterRunsFaster(delta, light);
    } else if light == NICE_0_WEIGHT && heavy > NICE_0_WEIGHT {
      HeavierRunsSlower(delta, heavy);
    } else if light != heavy {
      ScaledAntitone(delta, heavy, light);
    }
  }

  /** The least run time that a factor takes past 64 bits. */
  function FirstCut(f: nat): nat
    requires f > 0
  {
    (TWO_96 + f - 1) / f
  }

  lemma FirstCutBounds(f: nat)
    requires TWO_32 <= f <= TWO_42
    ensures var d := FirstCut(f); TWO_96 <= d * f < TWO_96 + f && TWO_54 <= d <= TWO_64
  {
    var d := FirstCut(f);
    DivBounds(TWO_96 + f - 1, f);
    assert f * (d + 1) == f * d + f && (TWO_64 + 1) * f == TWO_64 * f + f;
    MulMono(f, TWO_42, TWO_54 - 1);
    MulMono(TWO_32, f, TWO_64);
    if d < TWO_54 {
      MulMono(d, TWO_54 - 1, f);
    }
    if d > TWO_64 {
      MulMono(TWO_64 + 1, d, f);
    }
  }

  /** Past that run time the result is cut, and not before. */
  lemma CutFrom(delta: nat, f: nat)
    requires TWO_32 <= f <= TWO_42
    ensures delta * f / TWO_32 >= TWO_64 <==> delta >= FirstCut(f)
  {
    var d := FirstCut(f);
    FirstCutBounds(f);
    DivBounds(delta * f, TWO_32);
    if delta >= d {
      MulMono(d, delta, f);
      DivMono(TWO_96, delta * f, TWO_32);
    } else {
      MulMono(delta, d - 1, f);
      assert (d - 1) * f == d * f - f;
    }
  }

  /** Right there a light weight's result is cut to almost nothing, while any smaller factor's is whole and large. */
  lemma CutReverses(f: nat, g: nat)
    requires TWO_32 <= f <= TWO_42 && NICE_0_WEIGHT <= g < f
    ensures var d := FirstCut(f); Usize(d * f / TWO_32) <= 1024 < Usize(d * g / TWO_32) && d > 1024
  {
    hide FirstCut;
    var d := FirstCut(f);
    FirstCutBounds(f);
    CutOfLight(d * f);
    MulMono(g, f - 1, d);
    assert (f - 1) * d == d * f - d;
    MulMono(TWO_54, d, g);
    MulMono(NICE_0_WEIGHT, g, TWO_54);
    WholeOfHeavy(d * g);
  }

  lemma CutOfLight(x: nat)
    requires TWO_96 <= x < TWO_96 + TWO_42
    ensures Usize(x / TWO_32) <= 1024
  {
    DivBounds(x, TWO_32);
    assert TWO_64 <= x / TWO_32 <= TWO_64 + 1024;
  }

  lemma WholeOfHeavy(x: nat)
    requires TWO_64 <= x < TWO_96
    ensures Usize(x / TWO_32) > 1024
  {
    DivBounds(x, TWO_32);
    assert TWO_32 <= x / TWO_32 < TWO_64;
  }

  /** Below nice level 0 the factor is more than one; no factor is below 1024 units. */
  lemma FactorRange(weight: nat)
    requires 1 <= weight <= WMULT_CONST
    ensures NICE_0_WEIGHT <= Factor(NICE_0_WEIGHT, weight) <= TWO_42
    ensures weight < NICE_0_WEIGHT ==> TWO_32 < Factor(NICE_0_WEIGHT, weight)
    ensures weight >= NICE_0_WEIGHT ==> Factor(NICE_0_WEIGHT, weight) < TWO_32
  {
    hide Factor, Pow2, Lost;
    FactorBounds(NICE_0_WEIGHT, weight);
    MulMono(1, weight, Factor(NICE_0_WEIGHT, weight));
    FactorAntitone(WMULT_CONST, weight);
    FactorAtEnds();
    if weight < NICE_0_WEIGHT {
      FactorAntitone(1023, weight);
    } else {
      FactorAntitone(weight, NICE_0_WEIGHT);
    }
  }

  lemma FactorAtEnds()
    ensures Factor(NICE_0_WEIGHT, 1023) == 4299165696 && Factor(NICE_0_WEIGHT, WMULT_CONST) == 1024
    ensures Factor(NICE_0_WEIGHT, NICE_0_WEIGHT) == 4294966272
  {
    FactorIsRounded(NICE_0_WEIGHT, 1023);
    FactorIsRounded(NICE_0_WEIGHT, WMULT_CONST);
    FactorIsRounded(NICE_0_WEIGHT, NICE_0_WEIGHT);
    assert InvWeight(1023) == 4198404 && InvWeight(WMULT_CONST) == 1 && InvWeight(NICE_0_WEIGHT) == 4194303;
    assert Halvings(4299165696) == 1 && Shrunk(4299165696) == 2149582848;
    assert Pow2(1) == 2 && Pow2(0) == 1;
  }

  /** No run time up to `bound` makes the heavier task age faster. */
  ghost predicate NeverFasterUpTo(bound: nat, heavy: nat, light: nat) {
    forall delta: nat :: delta <= bound ==> DeltaFair(delta, heavy) <= DeltaFair(delta, light)
  }

  /**
   Up to a run time `bound` a heavier task never ages faster exactly when the lighter one is no lighter
   than nice level 0, or both have the same factor, or the lighter one's virtual time for `bound` fits
   64 bits.
   */
  lemma HeavierNeverFasterIff(bound: nat, heavy: nat, light: nat)
    requires bound < TWO_64 && 1 <= light <= heavy <= WMULT_CONST
    ensures NeverFasterUpTo(bound, heavy, light) <==>
              || light >= NICE_0_WEIGHT
              || Factor(NICE_0_WEIGHT, heavy) == Factor(NICE_0_WEIGHT, light)
              || Scaled(bound, NICE_0_WEIGHT, light) < TWO_64
  {
    hide Factor, DeltaFair, FirstCut;
    var f, g := Factor(NICE_0_WEIGHT, light), Factor(NICE_0_WEIGHT, heavy);
    FactorRange(light);
    FactorRange(heavy);
    if light >= NICE_0_WEIGHT || f == g || Scaled(bound, NICE_0_WEIGHT, light) < TWO_64 {
      forall delta: nat | delta <= bound ensures DeltaFair(delta, heavy) <= DeltaFair(delta, light) {
        NeverFasterAt(delta, bound, heavy, light);
      }
    } else {
      FactorAntitone(heavy, light);
      CutFrom(bound, f);
      var d := FirstCut(f);
      FasterAtCut(heavy, light, f);
      assert DeltaFair(d, heavy) > DeltaFair(d, light);
    }
  }

  lemma NeverFasterAt(delta: nat, bound: nat, heavy: nat, light: nat)
    requires delta <= bound < TWO_64 && 1 <= light <= heavy <= WMULT_CONST
    requires light >= NICE_0_WEIGHT || Factor(NICE_0_WEIGHT, heavy) == Factor(NICE_0_WEIGHT, light)
             || Scaled(bound, NICE_0_WEIGHT, light) < TWO_64
    ensures DeltaFair(delta, heavy) <= DeltaFair(delta, light)
  {
    hide Factor;
    if light > NICE_0_WEIGHT {
      HeavierRunsSlower(delta, light);
      HeavierNeverFaster(delta, heavy, light);
    } else if light == NICE_0_WEIGHT {
      HeavierNeverFaster(delta, heavy, light);
    } else if Scaled(bound, NICE_0_WEIGHT, light) < TWO_64 {
      var f := Factor(NICE_0_WEIGHT, light);
      MulMono(delta, bound, f);
      DivMono(delta * f, bound * f, TWO_32);
      HeavierNeverFaster(delta, heavy, light);
    } else {
      FactorRange(light);
      FactorRange(heavy);
    }
  }

  lemma FasterAtCut(heavy: nat, light: nat, f: nat)
    requires 1 <= light < heavy <= WMULT_CONST && light < NICE_0_WEIGHT
    requires Factor(NICE_0_WEIGHT, heavy) < f == Factor(NICE_0_WEIGHT, light)
    ensures DeltaFair(FirstCut(f), heavy) > DeltaFair(FirstCut(f), light)
  {
    hide Factor, FirstCut;
    FactorRange(light);
    FactorRange(heavy);
    CutReverses(f, Factor(NICE_0_WEIGHT, heavy));
  }

  /** Past that the cut to 64 bits can make a lighter task age slower: nice 19 against nice 0. */
  lemma HeavierFasterWhenCut()
    ensures DeltaFair(270215977705144321, NICE_0_WEIGHT) > DeltaFair(270215977705144321, 15)
  {
    assert InvWeight(15) == 286331153;
    var n := 293203100672;
    assert n == NICE_0_WEIGHT * InvWeight(15);
    assert Halvings(4581298448) == 1 && Shrunk(4581298448) == 2290649224;
    assert Halvings(18325193792) == 3 && Shrunk(18325193792) == 2290649224;
    assert Halvings(73300775168) == 5 && Shrunk(73300775168) == 2290649224;
    assert Halvings(n) == 7 && Shrunk(n) == 2290649224;
    assert Pow2(7) == 128;
    FactorIsRounded(NICE_0_WEIGHT, 15);
    assert Factor(NICE_0_WEIGHT, 15) == n;
  }

  // ---------------------------------------------------------------- nice levels

  const NICE_TO_WEIGHT: seq<nat> :=
    [88761, 71755, 56483, 46273, 36291, 29154, 23254, 18705, 14949, 11916,
     9548, 7620, 6100, 4904, 3906, 3121, 2501, 1991, 1586, 1277,
     1024, 820, 655, 526, 423, 335, 272, 215, 172, 137,
     110, 87, 70, 56, 45, 36, 29, 23, 18, 15]

  /** `nice_to_weight`; a level outside -20..19 makes the source panic. */
  function NiceToWeight(nice: int): (w: nat)
    requires -20 <= nice <= 19
    ensures 15 <= w <= 88761
  {
    NICE_TO_WEIGHT[nice + 20]
  }

  lemma {:induction false} WeightsDecrease(nice: int, nicer: int)
    requires -20 <= nice <= nicer <= 19
    ensures NiceToWeight(nicer) <= NiceToWeight(nice)
    decreases nicer - nice
  {
    if nice < nicer {
      WeightsDecrease(nice, nicer - 1);
    }
  }

  /** Level 0 has weight 1024, and one level is worth a factor between 1.2 and 1.28. */
  lemma WeightSteps(nice: int)
    requires -20 <= nice < 19
    ensures NiceToWeight(0) == 1024
    ensures 120 * NiceToWeight(nice + 1) <= 100 * NiceToWeight(nice) <= 128 * NiceToWeight(nice + 1)
  {
  }

  /** A nicer task ages at least as fast while its own virtual time fits 64 bits. */
  lemma NicerAgesFaster(delta: nat, nice: int, nicer: int)
    requires delta < TWO_64 && -20 <= nice <= nicer <= 19
    requires nicer <= 0 || Scaled(delta, NICE_0_WEIGHT, NiceToWeight(nicer)) < TWO_64
    ensures DeltaFair(delta, NiceToWeight(nice)) <= DeltaFair(delta, NiceToWeight(nicer))
  {
    hide DeltaFair, Factor;
    WeightsDecrease(nice, nicer);
    if nicer <= 0 {
      WeightsDecrease(nicer, 0);
    }
    NeverFasterAt(delta, delta, NiceToWeight(nice), NiceToWeight(nicer));
  }

  // ---------------------------------------------------------------- slices of a period

  /** `sched_period`. */
  function SchedPeriod(nrRunning: nat): (p: nat)
    ensures p < TWO_64
  {
    if nrRunning > SCHED_NR_LATENCY then Usize(nrRunning * SCHED_MIN_GRANULARITY) else SCHED_LATENCY
  }

  /** The period is the larger of the latency target and one granule for each running entity. */
  lemma PeriodIsLarger(nrRunning: nat)
    requires nrRunning * 750_000 < TWO_64
    ensures var p := SchedPeriod(nrRunning);
            p >= 6_000_000 && p >= nrRunning * 750_000 && (p == 6_000_000 || p == nrRunning * 750_000)
    ensures SchedPeriod(nrRunning)
         == if nrRunning <= SCHED_NR_LATENCY then SCHED_LATENCY else SCHED_LATENCY * nrRunning / SCHED_NR_LATENCY
  {
  }

  /** `RunQueue::sched_slice`: a task that is not queued yet is counted in. */
  function SchedSlice(nrRunning: nat, load: nat, weight: nat, onRq: bool): nat {
    if onRq then Usize(Scaled(SchedPeriod(nrRunning), weight, load))
    else Usize(Scaled(SchedPeriod(nrRunning + 1), weight, load + weight))
  }

  function Sum(ws: seq<nat>): nat {
    if ws == [] then 0 else ws[0] + Sum(ws[1..])
  }

  function SliceSum(nrRunning: nat, load: nat, ws: seq<nat>): nat {
    if ws == [] then 0 else SchedSlice(nrRunning, load, ws[0], true) + SliceSum(nrRunning, load, ws[1..])
  }

  lemma {:induction false} SumMember(ws: seq<nat>, i: nat)
    requires i < |ws|
    ensures ws[i] <= Sum(ws)
  {
    if i > 0 {
      SumMember(ws[1..], i - 1);
    }
  }

  /** One slice is at most its exact share, in units of 2^-32. */
  lemma SliceBound(nrRunning: nat, load: nat, weight: nat)
    requires 1 <= load <= WMULT_CONST && weight <= load
    ensures SchedSlice(nrRunning, load, weight, true) * TWO_32 <= SchedPeriod(nrRunning) * InvWeight(load) * weight
    ensures SchedSlice(nrRunning, load, weight, true) <= SchedPeriod(nrRunning)
  {
    hide SchedPeriod, InvWeight, Factor, Usize;
    var period := SchedPeriod(nrRunning);
    ShareFactor(load, weight);
    var f := Factor(weight, load);
    DivBounds(period * f, TWO_32);
    assert period * f == period * InvWeight(load) * weight;
    CutIffTooLarge(period, weight, load);
    MulMono(f, TWO_32, period);
    DivMono(period * f, period * TWO_32, TWO_32);
    DivUnique(period * TWO_32, TWO_32, period);
  }

  lemma ShareFactor(load: nat, weight: nat)
    requires 1 <= load <= WMULT_CONST && weight <= load
    ensures Factor(weight, load) == weight * InvWeight(load) < TWO_32
  {
    LostIsSmall(weight, load);
    FactorIsRounded(weight, load);
  }

  lemma {:induction false} SliceSumBound(nrRunning: nat, load: nat, ws: seq<nat>)
    requires 1 <= load <= WMULT_CONST && forall i :: 0 <= i < |ws| ==> ws[i] <= load
    ensures SliceSum(nrRunning, load, ws) * TWO_32 <= SchedPeriod(nrRunning) * InvWeight(load) * Sum(ws)
  {
    hide SchedSlice, SchedPeriod, InvWeight;
    if ws != [] {
      SliceBound(nrRunning, load, ws[0]);
      SliceSumBound(nrRunning, load, ws[1..]);
      var unit := SchedPeriod(nrRunning) * InvWeight(load);
      assert unit * Sum(ws) == unit * ws[0] + unit * Sum(ws[1..]);
    }
  }

  /** The slices of all queued tasks together fit in one period, so each of them does. */
  lemma SlicesFitPeriod(nrRunning: nat, load: nat, ws: seq<nat>)
    requires Sum(ws) == load && 1 <= load <= WMULT_CONST
    ensures SliceSum(nrRunning, load, ws) <= SchedPeriod(nrRunning)
    ensures forall i :: 0 <= i < |ws| ==> SchedSlice(nrRunning, load, ws[i], true) <= SchedPeriod(nrRunning)
  {
    hide SchedSlice, SchedPeriod, InvWeight, SliceSum, Sum;
    forall i | 0 <= i < |ws|
      ensures ws[i] <= load && SchedSlice(nrRunning, load, ws[i], true) <= SchedPeriod(nrRunning)
    {
      SumMember(ws, i);
      SliceBound(nrRunning, load, ws[i]);
    }
    SliceSumBound(nrRunning, load, ws);
    var period := SchedPeriod(nrRunning);
    WholeShare(period, load);
    Cancel(SliceSum(nrRunning, load, ws), period, TWO_32);
  }

  lemma WholeShare(period: nat, load: nat)
    requires 1 <= load <= WMULT_CONST
    ensures period * InvWeight(load) * load <= period * TWO_32
  {
    MulMono(InvWeight(load) * load, TWO_32, period);
    assert period * InvWeight(load) * load == InvWeight(load) * load * period;
  }

  /** A newcomer's slice, with itself counted in, fits beside the slices of all queued entities. */
  lemma NewcomerFits(nrRunning: nat, load: nat, ws: seq<nat>, weight: nat)
    requires Sum(ws) == load && 1 <= load + weight <= WMULT_CONST
    ensures SchedSlice(nrRunning, load, weight, false) + SliceSum(nrRunning + 1, load + weight, ws)
         <= SchedPeriod(nrRunning + 1)
  {
    hide SchedPeriod, Scaled, Usize;
    var all := [weight] + ws;
    assert all[1..] == ws;
    SlicesFitPeriod(nrRunning + 1, load + weight, all);
  }

  /** The period and the load that a slice is cut from; a newcomer is counted in. */
  function PeriodFor(nrRunning: nat, onRq: bool): nat {
    SchedPeriod(if onRq then nrRunning else nrRunning + 1)
  }

  function LoadFor(load: nat, weight: nat, onRq: bool): nat {
    if onRq then load else load + weight
  }

  /**
   A slice is the entity's share of the period: at most `period * weight / load`, and short of it by
   less than `1 + period * (weight + 1) / 2^32`. (Both inequalities are multiplied out.)
   */
  lemma SliceIsShare(nrRunning: nat, load: nat, weight: nat, onRq: bool)
    requires weight <= LoadFor(load, weight, onRq) && 1 <= LoadFor(load, weight, onRq) <= WMULT_CONST
    ensures var period, all := PeriodFor(nrRunning, onRq), LoadFor(load, weight, onRq);
            var slice := SchedSlice(nrRunning, load, weight, onRq);
            && slice * all <= period * weight
            && period * weight * TWO_32 < (slice + 1) * all * TWO_32 + period * (weight + 1) * all
  {
    hide SchedPeriod, Factor, Lost, Usize, InvWeight, SchedSlice;
    var period, all := PeriodFor(nrRunning, onRq), LoadFor(load, weight, onRq);
    LostIsSmall(weight, all);
    SliceIsScaled(nrRunning, load, weight, onRq);
    ScaledBounds(period, weight, all);
    assert Pow2(Lost(weight, all)) == 1;
  }

  /** The result of the division always fits 64 bits. */
  lemma SliceIsScaled(nrRunning: nat, load: nat, weight: nat, onRq: bool)
    requires weight <= LoadFor(load, weight, onRq) && 1 <= LoadFor(load, weight, onRq) <= WMULT_CONST
    ensures Scalable(weight, LoadFor(load, weight, onRq))
    ensures SchedSlice(nrRunning, load, weight, onRq) == Scaled(PeriodFor(nrRunning, onRq), weight, LoadFor(load, weight, onRq))
  {
    hide Factor, SchedPeriod, Usize, Scaled, InvWeight;
    var period, all := PeriodFor(nrRunning, onRq), LoadFor(load, weight, onRq);
    ShareIsSmall(period, weight, all);
    UsizeOfSmall(Scaled(period, weight, all));
  }

  lemma ShareIsSmall(period: nat, weight: nat, all: nat)
    requires weight <= all && 1 <= all <= WMULT_CONST
    ensures Scaled(period, weight, all) <= period
  {
    hide Factor, InvWeight;
    ShareFactor(all, weight);
    MulMono(Factor(weight, all), TWO_32, period);
    DivMono(period * Factor(weight, all), period * TWO_32, TWO_32);
    DivUnique(period * TWO_32, TWO_32, period);
  }

  lemma UsizeOfSmall(x: nat)
    requires x < TWO_64
    ensures Usize(x) == x
  {
  }

  lemma {:induction false} SliceSumAtLeast(nrRunning: nat, load: nat, ws: seq<nat>)
    requires 1 <= load <= WMULT_CONST && forall i :: 0 <= i < |ws| ==> ws[i] <= load
    ensures SchedPeriod(nrRunning) * Sum(ws) * TWO_32
         <= (SliceSum(nrRunning, load, ws) + |ws|) * load * TWO_32 + SchedPeriod(nrRunning) * (Sum(ws) + |ws|) * load
  {
    hide SchedSlice, SchedPeriod;
    if ws != [] {
      SliceIsShare(nrRunning, load, ws[0], true);
      SliceSumAtLeast(nrRunning, load, ws[1..]);
      AddShares(SchedPeriod(nrRunning), load, ws[0], SchedSlice(nrRunning, load, ws[0], true),
                Sum(ws[1..]), SliceSum(nrRunning, load, ws[1..]), |ws| - 1);
    }
  }

  lemma AddShares(period: nat, load: nat, weight: nat, slice: nat, sum: nat, slices: nat, n: nat)
    requires period * weight * TWO_32 <= (slice + 1) * load * TWO_32 + period * (weight + 1) * load
    requires period * sum * TWO_32 <= (slices + n) * load * TWO_32 + period * (sum + n) * load
    ensures period * (weight + sum) * TWO_32
         <= (slice + slices + (n + 1)) * load * TWO_32 + period * (weight + sum + (n + 1)) * load
  {
    Distribute(weight, sum, period);
    Distribute(slice + 1, slices + n, load);
    Distribute(weight + 1, sum + n, period);
    Distribute(period * (weight + 1), period * (sum + n), load);
  }

  lemma Distribute(x: nat, y: nat, z: nat)
    ensures z * (x + y) == z * x + z * y && (x + y) * z == x * z + y * z
  {
  }

  /**
   The slices of all queued tasks fill the period: together they fall short of it by no more than one
   unit for each task and the rounding `period * (load + n) / 2^32`.
   */
  lemma SlicesFillPeriod(nrRunning: nat, load: nat, ws: seq<nat>)
    requires Sum(ws) == load && 1 <= load <= WMULT_CONST
    ensures SchedPeriod(nrRunning) * TWO_32
         <= (SliceSum(nrRunning, load, ws) + |ws|) * TWO_32 + SchedPeriod(nrRunning) * (load + |ws|)
  {
    hide SchedPeriod, SliceSum, Sum;
    forall i | 0 <= i < |ws| ensures ws[i] <= load {
      SumMember(ws, i);
    }
    SliceSumAtLeast(nrRunning, load, ws);
    CancelLoad(SchedPeriod(nrRunning), load, SliceSum(nrRunning, load, ws) + |ws|, load + |ws|);
  }

  lemma CancelLoad(period: nat, load: nat, s: nat, t: nat)
    requires load >= 1 && period * load * TWO_32 <= s * load * TWO_32 + period * t * load
    ensures period * TWO_32 <= s * TWO_32 + period * t
  {
    assert period * load * TWO_32 == period * TWO_32 * load;
    assert s * load * TWO_32 + period * t * load == (s * TWO_32 + period * t) * load;
    Cancel(period * TWO_32, s * TWO_32 + period * t, load);
  }
}
