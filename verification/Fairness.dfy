/**
 What the weights do in a run: over any stretch in which two entities of one CPU are not placed
 anew, the CPU time they get is in proportion to their weights, up to the rounding of the arithmetic.
 */
module Fairness {
  import opened Machine
  import FS = FairShare
  import VT = VirtualTime

  /** Tick `i` ages the running entity by the weighted time it ran, and none of it is cut off. */
  ghost predicate TicksByWeight(qs: seq<VT.RunQueue>, actions: seq<VT.Action>, weights: map<nat, nat>, execs: seq<nat>) {
    && VT.IsRun(qs, actions) && |execs| == |actions|
    && forall i :: 0 <= i < |actions| && actions[i].Tick? && VT.RunsOn(qs[i]) ==>
         && qs[i].current.value.tid in weights
         && Weighted(actions[i].advance, execs[i], weights[qs[i].current.value.tid])
  }

  /** `SchedTask::tick` for `exec` of run time, where the result fits 64 bits. */
  predicate Weighted(advance: nat, exec: nat, weight: nat) {
    && 1 <= weight <= FS.WMULT_CONST && advance == FS.DeltaFair(exec, weight)
    && (weight == FS.NICE_0_WEIGHT || FS.Scaled(exec, FS.NICE_0_WEIGHT, weight) < TWO_64)
  }

  predicate Ticks(q: VT.RunQueue, a: VT.Action, tid: nat) {
    a.Tick? && VT.RunsOn(q) && VT.IsCurrent(q, tid)
  }

  /** The CPU time of `tid` between the states `i` and `j`, and how often it was ticked. */
  ghost function Ran(qs: seq<VT.RunQueue>, actions: seq<VT.Action>, execs: seq<nat>, tid: nat, i: nat, j: nat): (nat, nat)
    requires |qs| == |actions| + 1 && |execs| == |actions| && i <= j <= |actions|
    decreases j
  {
    if i == j then (0, 0)
    else
      var (time, ticks) := Ran(qs, actions, execs, tid, i, j - 1);
      if Ticks(qs[j - 1], actions[j - 1], tid) then (time + execs[j - 1], ticks + 1) else (time, ticks)
  }

  /**
   Nothing places the entity anew: it is not spawned or moved, it goes on, and it is woken only where
   that does not lift it.
   */
  predicate LeavesInPlace(q: VT.RunQueue, a: VT.Action, tid: nat) {
    match a
    case Spawn(t, _, _) => t != tid
    case Wake(t) => t != tid || (tid in q.vruntime && q.min - VT.WAKE_THRESHOLD <= q.vruntime[tid])
    case Arrive(t, _, _) => t != tid
    case Depart(t) => t != tid
    case Finish(t) => t != tid
    case _ => true
  }

  /** `aged` is what `ran` of CPU time in `ticks` pieces is worth at this weight, rounded down a little. */
  predicate AgedBy(aged: int, ran: nat, ticks: nat, weight: nat) {
    && aged >= 0 && aged * weight <= ran * FS.NICE_0_WEIGHT
    && ran * FS.NICE_0_WEIGHT * TWO_32 <= (aged + ticks) * weight * TWO_32 + ran * 2048 * weight
  }

  lemma TickIsAging(advance: nat, exec: nat, weight: nat)
    requires Weighted(advance, exec, weight)
    ensures AgedBy(advance, exec, 1, weight)
  {
    hide FS.Scaled, FS.Lost, FS.Pow2, Usize;
    if weight == FS.NICE_0_WEIGHT {
      assert (exec + 1) * weight * TWO_32 >= exec * weight * TWO_32;
    } else {
      FS.CutIffTooLarge(exec, FS.NICE_0_WEIGHT, weight);
      FS.ScaledBounds(exec, FS.NICE_0_WEIGHT, weight);
      FS.Pow2At32();
      FS.Pow2Mono(FS.Lost(FS.NICE_0_WEIGHT, weight), 10);
      ErrorIsSmall(exec, weight, FS.Pow2(FS.Lost(FS.NICE_0_WEIGHT, weight)));
    }
  }

  lemma ErrorIsSmall(exec: nat, weight: nat, pow: nat)
    requires pow <= 1024
    ensures exec * (FS.NICE_0_WEIGHT + pow) * weight <= exec * 2048 * weight
  {
    FS.MulMono(FS.NICE_0_WEIGHT + pow, 2048, exec);
    FS.MulMono((FS.NICE_0_WEIGHT + pow) * exec, 2048 * exec, weight);
  }

  lemma AgedMore(aged: int, ran: nat, ticks: nat, weight: nat, advance: nat, exec: nat)
    requires AgedBy(aged, ran, ticks, weight) && AgedBy(advance, exec, 1, weight)
    ensures AgedBy(aged + advance, ran + exec, ticks + 1, weight)
  {
    Distributes(aged, advance, weight);
    Distributes(aged + ticks, advance + 1, weight);
    Distributes(ran, exec, 2048 * weight);
    Distributes(ran, exec, FS.NICE_0_WEIGHT);
    Reassociates(ran, weight);
    Reassociates(exec, weight);
    Reassociates(ran + exec, weight);
  }

  lemma Distributes(x: int, y: int, z: int)
    ensures (x + y) * z == x * z + y * z
  {
  }

  lemma Reassociates(ran: nat, weight: nat)
    ensures ran * 2048 * weight == ran * (2048 * weight)
  {
  }

  lemma StepAges(q: VT.RunQueue, a: VT.Action, tid: nat)
    requires VT.Enabled(q, a, false) && tid in q.vruntime && LeavesInPlace(q, a, tid)
    ensures tid in VT.Step(q, a, false).vruntime
    ensures VT.Step(q, a, false).vruntime[tid] == q.vruntime[tid] + if Ticks(q, a, tid) then a.advance else 0
  {
    hide VT.Peeks;
  }

  /** While it is left in place, an entity ages by its CPU time over its weight, and by nothing else. */
  lemma {:induction false} AgesByCpuTime(qs: seq<VT.RunQueue>, actions: seq<VT.Action>, weights: map<nat, nat>, execs: seq<nat>,
                                         tid: nat, i: nat, j: nat)
    requires TicksByWeight(qs, actions, weights, execs) && i <= j < |qs| && tid in qs[i].vruntime && tid in weights
    requires forall k :: i <= k < j ==> LeavesInPlace(qs[k], actions[k], tid)
    ensures tid in qs[j].vruntime
    ensures var (ran, ticks) := Ran(qs, actions, execs, tid, i, j);
            AgedBy(qs[j].vruntime[tid] - qs[i].vruntime[tid], ran, ticks, weights[tid])
    decreases j
  {
    hide VT.Step, VT.Enabled, VT.Narrow, Weighted, AgedBy;
    if i == j {
      NotAged(weights[tid]);
    } else {
      AgesByCpuTime(qs, actions, weights, execs, tid, i, j - 1);
      StepAges(qs[j - 1], actions[j - 1], tid);
      if Ticks(qs[j - 1], actions[j - 1], tid) {
        var (ran, ticks) := Ran(qs, actions, execs, tid, i, j - 1);
        TickIsAging(actions[j - 1].advance, execs[j - 1], weights[tid]);
        AgedMore(qs[j - 1].vruntime[tid] - qs[i].vruntime[tid], ran, ticks, weights[tid], actions[j - 1].advance, execs[j - 1]);
      }
    }
  }

  lemma NotAged(weight: nat)
    ensures AgedBy(0, 0, 0, weight)
  {
  }

  /**
   `ranA / weightA <= ranB / weightB`, multiplied out, but for a unit of virtual time for each tick and
   the part `2 * weightA / 2^32` of `ranA`.
   */
  predicate RanNoMore(ranA: nat, ticksA: nat, weightA: nat, ranB: nat, weightB: nat) {
    ranA * FS.NICE_0_WEIGHT * weightB * TWO_32
    <= ranB * FS.NICE_0_WEIGHT * weightA * TWO_32 + (ticksA * TWO_32 + ranA * 2048) * weightA * weightB
  }

  /** Who has aged no more has run no more, weight for weight. */
  lemma SharesOf(agedA: int, ranA: nat, ticksA: nat, weightA: nat, agedB: int, ranB: nat, ticksB: nat, weightB: nat)
    requires AgedBy(agedA, ranA, ticksA, weightA) && AgedBy(agedB, ranB, ticksB, weightB) && agedA <= agedB
    ensures RanNoMore(ranA, ticksA, weightA, ranB, weightB)
  {
    var a, b := ranA * FS.NICE_0_WEIGHT * TWO_32, (agedA + ticksA) * weightA * TWO_32 + ranA * 2048 * weightA;
    FS.MulMono(a, b, weightB);
    FS.MulMono(agedA, agedB, weightB);
    FS.MulMono(agedA * weightB, ranB * FS.NICE_0_WEIGHT, weightA * TWO_32);
    RegroupLeft(ranA, weightB);
    RegroupRight(agedA, ticksA, ranA, weightA, weightB);
    RegroupBound(agedA, ranB, weightA, weightB);
  }

  lemma RegroupLeft(ran: nat, weight: nat)
    ensures ran * FS.NICE_0_WEIGHT * TWO_32 * weight == ran * FS.NICE_0_WEIGHT * weight * TWO_32
  {
  }

  lemma RegroupRight(aged: int, ticks: nat, ran: nat, weightA: nat, weightB: nat)
    ensures ((aged + ticks) * weightA * TWO_32 + ran * 2048 * weightA) * weightB
         == aged * weightB * (weightA * TWO_32) + (ticks * TWO_32 + ran * 2048) * weightA * weightB
  {
    var p := weightA * weightB;
    assert (aged + ticks) * weightA * TWO_32 * weightB == (aged + ticks) * p * TWO_32;
    assert (aged + ticks) * p * TWO_32 == aged * p * TWO_32 + ticks * p * TWO_32;
    assert ran * 2048 * weightA * weightB == ran * 2048 * p;
    assert aged * weightB * (weightA * TWO_32) == aged * p * TWO_32;
    assert (ticks * TWO_32 + ran * 2048) * weightA * weightB == (ticks * TWO_32 + ran * 2048) * p;
    assert (ticks * TWO_32 + ran * 2048) * p == ticks * TWO_32 * p + ran * 2048 * p;
  }

  lemma RegroupBound(aged: int, ran: nat, weightA: nat, weightB: nat)
    ensures ran * FS.NICE_0_WEIGHT * (weightA * TWO_32) == ran * FS.NICE_0_WEIGHT * weightA * TWO_32
  {
  }

  /**
   Over every run: of two entities that stay in place, the one whose virtual time has grown no more has
   had no more CPU time for its weight.
   */
  lemma SharesFollowWeights(qs: seq<VT.RunQueue>, actions: seq<VT.Action>, weights: map<nat, nat>, execs: seq<nat>,
                            a: nat, b: nat, i: nat, j: nat)
    requires TicksByWeight(qs, actions, weights, execs) && i <= j < |qs|
    requires a in qs[i].vruntime && b in qs[i].vruntime && a in weights && b in weights
    requires forall k :: i <= k < j ==> LeavesInPlace(qs[k], actions[k], a) && LeavesInPlace(qs[k], actions[k], b)
    ensures a in qs[j].vruntime && b in qs[j].vruntime
    ensures qs[j].vruntime[a] - qs[i].vruntime[a] <= qs[j].vruntime[b] - qs[i].vruntime[b] ==>
              var (ranA, ticksA) := Ran(qs, actions, execs, a, i, j);
              var (ranB, ticksB) := Ran(qs, actions, execs, b, i, j);
              RanNoMore(ranA, ticksA, weights[a], ranB, weights[b])
  {
    hide VT.Step, VT.Enabled, VT.Narrow, Weighted, AgedBy, Ran, RanNoMore;
    AgesByCpuTime(qs, actions, weights, execs, a, i, j);
    AgesByCpuTime(qs, actions, weights, execs, b, i, j);
    var agedA, agedB := qs[j].vruntime[a] - qs[i].vruntime[a], qs[j].vruntime[b] - qs[i].vruntime[b];
    if agedA <= agedB {
      var (ranA, ticksA) := Ran(qs, actions, execs, a, i, j);
      var (ranB, ticksB) := Ran(qs, actions, execs, b, i, j);
      SharesOf(agedA, ranA, ticksA, weights[a], agedB, ranB, ticksB, weights[b]);
    }
  }
}
