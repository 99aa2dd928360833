/**
 Which task `pop_task_to_run` takes, and how far two runnable tasks can drift apart. If every choice is
 the earliest key up to some slack, the lag between two tasks that stay runnable is bounded by the
 slack and one turn; the rule that takes the earliest of the others keeps no such bound.
 */
module Preemption {
  import opened Machine
  import FS = FairShare
  import FN = Fairness
  import VT = VirtualTime

  // ---------------------------------------------------------------- the choice

  /** The current task, which has run for `ran`, has to go; `lead` is how far it is ahead of the earliest key. */
  predicate Preempts(onRq: bool, ran: nat, ideal: nat, lead: int) {
    !onRq || ran > ideal || (ran >= FS.SCHED_MIN_GRANULARITY && lead > Isize(ideal))
  }

  predicate PreemptsCurrent(q: VT.RunQueue, ran: nat, ideal: nat, next: nat, wrap: bool)
    requires q.current.Some? && VT.CurrentKnown(q) && next in q.ready
  {
    Preempts(VT.RunsOn(q) && q.current.value.tid in q.onRq, ran, ideal, VT.Delta(VT.CurrentTime(q), q.ready[next], wrap))
  }

  /**
   The task taken is `tid`: where two tasks or more compete (`contested`) the current one stays or the
   earliest of the others is taken, else the earliest. `next` is what `peek` returns.
   */
  predicate Chooses(q: VT.RunQueue, contested: bool, ran: nat, ideal: nat, next: nat, tid: nat, wrap: bool) {
    && VT.Peeks(q, Some(next), wrap) && VT.CurrentKnown(q)
    && if !contested || q.current.None? then VT.Peeks(q, Some(tid), wrap)
       else if PreemptsCurrent(q, ran, ideal, next, wrap) then
         VT.Peeks(VT.Unqueued(q, q.current.value.tid), Some(tid), wrap)
       else tid == q.current.value.tid && tid in q.ready
  }

  /** No queued key is earlier by more than `slack`. */
  predicate IsFair(q: VT.RunQueue, tid: nat, slack: nat) {
    tid in q.ready && forall t :: t in q.ready ==> q.ready[tid] <= q.ready[t] + slack
  }

  /** The choice is fair unless the current task is sent away although it is earlier, or kept although it is later. */
  lemma ChoiceIsFairIff(q: VT.RunQueue, contested: bool, ran: nat, ideal: nat, next: nat, tid: nat, slack: nat)
    requires Chooses(q, contested, ran, ideal, next, tid, false)
    ensures IsFair(q, tid, slack) <==>
            || !contested || q.current.None?
            || (if PreemptsCurrent(q, ran, ideal, next, false)
                then q.current.value.tid in q.ready ==> q.ready[tid] <= q.ready[q.current.value.tid] + slack
                else q.ready[tid] <= q.ready[next] + slack)
  {
    if contested && q.current.Some? && PreemptsCurrent(q, ran, ideal, next, false) {
      var c, r := q.current.value.tid, VT.Unqueued(q, q.current.value.tid);
      assert forall t :: t in q.ready && t != c ==> t in r.ready && r.ready[t] == q.ready[t];
    }
  }

  /**
   The current task stays exactly if it is on the queue, has not used up its slice, and has run for less
   than 0.75 ms or is ahead of the earliest key by no more than its slice.
   */
  lemma StaysIff(q: VT.RunQueue, ran: nat, ideal: nat, next: nat, tid: nat)
    requires Chooses(q, true, ran, ideal, next, tid, false) && q.current.Some? && ideal < TWO_63
    ensures tid == q.current.value.tid <==>
            && VT.RunsOn(q) && q.current.value.tid in q.onRq && ran <= ideal
            && (ran < 750_000 || VT.CurrentTime(q) <= q.ready[next] + ideal)
  {
    if PreemptsCurrent(q, ran, ideal, next, false) {
      assert tid in VT.Unqueued(q, q.current.value.tid).ready;
    }
  }

  /** A task that is queued under its own virtual time. */
  predicate Settled(q: VT.RunQueue, tid: nat) {
    tid in q.vruntime && tid in q.ready && q.ready[tid] == q.vruntime[tid]
  }

  /** A task kept after its first `FS.SCHED_MIN_GRANULARITY` is fair up to its slice. */
  lemma KeptIsFair(q: VT.RunQueue, ran: nat, ideal: nat, next: nat, tid: nat)
    requires Chooses(q, true, ran, ideal, next, tid, false) && q.current.Some? && Settled(q, tid) && ideal < TWO_63
    requires !PreemptsCurrent(q, ran, ideal, next, false) && ran >= FS.SCHED_MIN_GRANULARITY
    ensures IsFair(q, tid, ideal)
  {
    ChoiceIsFairIff(q, true, ran, ideal, next, tid, ideal);
  }

  // ---------------------------------------------------------------- staying runnable

  /** A task that is queued under its own virtual time or running. */
  predicate Staying(q: VT.RunQueue, tid: nat) {
    tid in q.vruntime && tid in q.onRq && (Settled(q, tid) || (VT.RunsOn(q) && VT.IsCurrent(q, tid)))
  }

  predicate Spares(a: VT.Action, tid: nat) {
    !(a.Arrive? && a.tid == tid)
  }

  /** From state `i` to state `j` the task is queued or running, and queued whenever one is taken. */
  ghost predicate StaysRunnable(qs: seq<VT.RunQueue>, actions: seq<VT.Action>, tid: nat, i: nat, j: nat)
    requires |qs| == |actions| + 1 && j < |qs|
  {
    && (forall k :: i <= k <= j ==> Staying(qs[k], tid))
    && (forall k :: i <= k < j ==> Spares(actions[k], tid))
    && (forall k :: i <= k < j && actions[k].Pop? ==> Settled(qs[k], tid))
  }

  /** A task that yields is queued under its own virtual time once its turn has been accounted for. */
  lemma YieldSettles(q: VT.RunQueue, advance: nat, next: Option<nat>)
    requires VT.RunsOn(q) && VT.CurrentKnown(q)
    requires VT.Enabled(VT.Step(q, VT.Wake(q.current.value.tid), false), VT.Tick(advance, next), false)
    ensures var woken := VT.Step(q, VT.Wake(q.current.value.tid), false);
            Settled(VT.Step(woken, VT.Tick(advance, next), false), q.current.value.tid)
  {
    hide VT.Peeks, VT.Later, VT.Earlier;
  }

  /** It stays so until it is taken, woken, removed or moved, unless a completed namesake is current. */
  lemma SettledStays(q: VT.RunQueue, a: VT.Action, tid: nat)
    requires VT.Enabled(q, a, false) && Settled(q, tid) && !VT.IsCurrent(q, tid)
    ensures Settled(VT.Step(q, a, false), tid) <==>
            match a
            case Wake(t) => t == tid ==> q.vruntime[tid] <= q.min - VT.WAKE_THRESHOLD
            case Pop(t) => t != tid
            case Remove(t, _) => t != tid
            case Arrive(t, v, key) => t == tid ==> v == key
            case Depart(t) => t != tid
            case _ => true
  {
    hide VT.Peeks, VT.Earlier;
  }

  /** The minimum never passes a task that stays runnable. */
  lemma MinStaysBehind(q: VT.RunQueue, a: VT.Action, tid: nat)
    requires VT.Enabled(q, a, false) && Staying(VT.Step(q, a, false), tid)
    ensures var q' := VT.Step(q, a, false);
            q'.min == q.min || q'.min <= q'.vruntime[tid]
  {
    hide VT.Later, VT.Earlier, VT.UpdateMin;
    match a {
      case Tick(advance, next) => UpdateStaysBehind(VT.Ticked(q, advance, false), next, tid);
      case Remove(t, next) =>
        if t in q.ready || VT.IsCurrent(q, t) {
          UpdateStaysBehind(VT.Dropped(q, t), next, tid);
        }
      case RemoveFinished(next) => UpdateStaysBehind(VT.Unqueued(q, q.current.value.tid), next, tid);
      case _ =>
    }
  }

  lemma UpdateStaysBehind(q: VT.RunQueue, next: Option<nat>, tid: nat)
    requires VT.CurrentKnown(q) && VT.Peeks(q, next, false) && (next.Some? ==> next.value in q.ready)
    ensures var q' := VT.UpdateMin(q, next, false);
            Staying(q', tid) ==> q'.min == q.min || q'.min <= q'.vruntime[tid]
  {
    hide VT.Peeks, VT.Later, VT.Earlier;
    VT.UpdateMinExact(q, next);
    if Staying(q, tid) {
      assert VT.Competes(q, q.vruntime[tid]) by {
        if Settled(q, tid) {
          assert q.ready[tid] in q.ready.Values;
        }
      }
    }
  }

  /** So no wake ever lifts it: its virtual time grows by its own ticks alone. */
  lemma {:induction false} NeverLifted(qs: seq<VT.RunQueue>, actions: seq<VT.Action>, tid: nat, i: nat, k: nat, j: nat)
    requires VT.IdealRun(qs, actions) && i <= k <= j < |qs| && StaysRunnable(qs, actions, tid, i, j)
    requires qs[i].min - VT.WAKE_THRESHOLD <= qs[i].vruntime[tid]
    ensures qs[k].min - VT.WAKE_THRESHOLD <= qs[k].vruntime[tid]
    ensures k < j ==> FN.LeavesInPlace(qs[k], actions[k], tid)
  {
    hide VT.Enabled, VT.Step;
    if i < k {
      NeverLifted(qs, actions, tid, i, k - 1, j);
      FN.StepAges(qs[k - 1], actions[k - 1], tid);
      assert Staying(qs[k], tid);
      MinStaysBehind(qs[k - 1], actions[k - 1], tid);
    }
    if k < j {
      assert Staying(qs[k], tid) && Staying(qs[k + 1], tid);
      StayingInPlace(qs[k], actions[k], tid);
    }
  }

  lemma StayingInPlace(q: VT.RunQueue, a: VT.Action, tid: nat)
    requires VT.Enabled(q, a, false) && Staying(q, tid) && Staying(VT.Step(q, a, false), tid) && Spares(a, tid)
    requires q.min - VT.WAKE_THRESHOLD <= q.vruntime[tid]
    ensures FN.LeavesInPlace(q, a, tid)
  {
    hide VT.Peeks, VT.Later, VT.Earlier;
  }

  // ---------------------------------------------------------------- turns

  /** State `m` is in the turn that begins with action `k`. */
  predicate InTurn(actions: seq<VT.Action>, k: nat, m: nat) {
    && k < m <= |actions| && actions[k].Pop?
    && forall x :: k < x < m ==> !actions[x].Pop?
  }

  /** The beginning of the turn that state `m` is in. */
  function TurnStart(actions: seq<VT.Action>, i: nat, m: nat): (k: nat)
    requires i < m <= |actions| && actions[i].Pop?
    ensures i <= k && InTurn(actions, k, m)
    decreases m
  {
    if actions[m - 1].Pop? then m - 1 else TurnStart(actions, i, m - 1)
  }

  /** No turn of `tid` ages it by more than `turn`. */
  ghost predicate TurnsWithin(qs: seq<VT.RunQueue>, actions: seq<VT.Action>, tid: nat, turn: nat, i: nat, j: nat)
    requires |qs| == |actions| + 1 && j < |qs|
  {
    forall k, m :: i <= k < m <= j && InTurn(actions, k, m) && actions[k] == VT.Pop(tid) ==>
      AgesWithin(qs[k], qs[m], tid, turn)
  }

  predicate AgesWithin(q: VT.RunQueue, q': VT.RunQueue, tid: nat, turn: nat) {
    tid in q.vruntime && tid in q'.vruntime ==> q'.vruntime[tid] <= q.vruntime[tid] + turn
  }

  /** Whenever `tid` is taken, no queued key is earlier by more than `slack`. */
  ghost predicate TakenFairly(qs: seq<VT.RunQueue>, actions: seq<VT.Action>, tid: nat, slack: nat, i: nat, j: nat)
    requires |qs| == |actions| + 1 && j < |qs|
  {
    forall k :: i <= k < j && actions[k] == VT.Pop(tid) ==> IsFair(qs[k], tid, slack)
  }

  lemma StepKeepsCurrent(q: VT.RunQueue, a: VT.Action)
    requires VT.Enabled(q, a, false)
    ensures a.Pop? ==> VT.IsCurrent(VT.Step(q, a, false), a.tid)
    ensures !a.Pop? ==> forall t :: VT.IsCurrent(VT.Step(q, a, false), t) <==> VT.IsCurrent(q, t)
  {
    hide VT.Peeks, VT.Later, VT.Earlier;
  }

  /** In a turn only the task taken is ticked. */
  lemma {:induction false} TurnIsOnes(qs: seq<VT.RunQueue>, actions: seq<VT.Action>, k: nat, m: nat)
    requires VT.IdealRun(qs, actions) && InTurn(actions, k, m)
    ensures VT.IsCurrent(qs[m], actions[k].tid)
    decreases m
  {
    hide VT.Enabled, VT.Step;
    StepKeepsCurrent(qs[m - 1], actions[m - 1]);
    if k + 1 < m {
      TurnIsOnes(qs, actions, k, m - 1);
    }
  }

  /** The others wait: a task ages in its own turns only, and nobody gets younger. */
  lemma {:induction false} AgesInOwnTurns(qs: seq<VT.RunQueue>, actions: seq<VT.Action>, tid: nat, k: nat, m: nat)
    requires VT.IdealRun(qs, actions) && InTurn(actions, k, m) && tid in qs[k].vruntime
    requires forall x :: k <= x < m ==> FN.LeavesInPlace(qs[x], actions[x], tid)
    ensures tid in qs[m].vruntime && qs[k].vruntime[tid] <= qs[m].vruntime[tid]
    ensures actions[k].tid != tid ==> qs[m].vruntime[tid] == qs[k].vruntime[tid]
    decreases m
  {
    hide VT.Enabled, VT.Step;
    if k + 1 < m {
      AgesInOwnTurns(qs, actions, tid, k, m - 1);
      TurnIsOnes(qs, actions, k, m - 1);
    }
    FN.StepAges(qs[m - 1], actions[m - 1], tid);
  }

  // ---------------------------------------------------------------- the lag

  function Lag(q: VT.RunQueue, a: nat, b: nat): int
    requires a in q.vruntime && b in q.vruntime
  {
    q.vruntime[a] - q.vruntime[b]
  }

  function Max(x: int, y: int): int {
    if x > y then x else y
  }

  /** `a` and `b` stay runnable from the taking of a task on, and neither starts far behind the minimum. */
  ghost predicate Compete(qs: seq<VT.RunQueue>, actions: seq<VT.Action>, a: nat, b: nat, i: nat, j: nat) {
    && VT.IdealRun(qs, actions) && i <= j < |qs| && (i < j ==> actions[i].Pop?)
    && StaysRunnable(qs, actions, a, i, j) && StaysRunnable(qs, actions, b, i, j)
    && Staying(qs[i], a) && qs[i].min - VT.WAKE_THRESHOLD <= qs[i].vruntime[a]
    && Staying(qs[i], b) && qs[i].min - VT.WAKE_THRESHOLD <= qs[i].vruntime[b]
  }

  /** While two tasks stay runnable and one is taken fairly, it is never ahead by more than slack and turn. */
  lemma {:induction false} LagIsBounded(qs: seq<VT.RunQueue>, actions: seq<VT.Action>, a: nat, b: nat,
                                        slack: nat, turn: nat, i: nat, m: nat, j: nat)
    requires Compete(qs, actions, a, b, i, j) && i <= m <= j
    requires TakenFairly(qs, actions, a, slack, i, j) && TurnsWithin(qs, actions, a, turn, i, j)
    ensures Staying(qs[m], a) && Staying(qs[m], b)
    ensures Lag(qs[m], a, b) <= Max(Lag(qs[i], a, b), slack + turn)
    decreases m
  {
    hide VT.Enabled, VT.Step;
    if i < m {
      var k := TurnStart(actions, i, m);
      LagIsBounded(qs, actions, a, b, slack, turn, i, k, j);
      forall x | k <= x < m ensures FN.LeavesInPlace(qs[x], actions[x], a) && FN.LeavesInPlace(qs[x], actions[x], b) {
        NeverLifted(qs, actions, a, i, x, j);
        NeverLifted(qs, actions, b, i, x, j);
      }
      AgesInOwnTurns(qs, actions, a, k, m);
      AgesInOwnTurns(qs, actions, b, k, m);
      if actions[k].tid == a {
        assert AgesWithin(qs[k], qs[m], a, turn);
        assert IsFair(qs[k], a, slack) && Settled(qs[k], a) && Settled(qs[k], b);
      }
    }
  }

  /**
   The CPU time of two tasks that stay runnable, one of which is taken fairly, follows their weights: it
   runs no more, weight for weight, than the other, but for slack, turn and what it was behind at first.
   */
  lemma SharesAreFair(qs: seq<VT.RunQueue>, actions: seq<VT.Action>, weights: map<nat, nat>, execs: seq<nat>,
                      a: nat, b: nat, slack: nat, turn: nat, i: nat, j: nat)
    requires Compete(qs, actions, a, b, i, j)
    requires FN.TicksByWeight(qs, actions, weights, execs) && a in weights && b in weights
    requires TakenFairly(qs, actions, a, slack, i, j) && TurnsWithin(qs, actions, a, turn, i, j)
    ensures var (ranA, ticksA) := FN.Ran(qs, actions, execs, a, i, j);
            var (ranB, ticksB) := FN.Ran(qs, actions, execs, b, i, j);
            FN.RanNoMore(ranA, ticksA + Max(0, slack + turn - Lag(qs[i], a, b)), weights[a], ranB, weights[b])
  {
    hide VT.Enabled, VT.Step, VT.Narrow, FN.Weighted, FN.Ran, FN.AgedBy, FN.RanNoMore, TakenFairly, TurnsWithin;
    LagIsBounded(qs, actions, a, b, slack, turn, i, j, j);
    forall k | i <= k < j ensures FN.LeavesInPlace(qs[k], actions[k], a) && FN.LeavesInPlace(qs[k], actions[k], b) {
      NeverLifted(qs, actions, a, i, k, j);
      NeverLifted(qs, actions, b, i, k, j);
    }
    FN.AgesByCpuTime(qs, actions, weights, execs, a, i, j);
    FN.AgesByCpuTime(qs, actions, weights, execs, b, i, j);
    var (ranA, ticksA) := FN.Ran(qs, actions, execs, a, i, j);
    var (ranB, ticksB) := FN.Ran(qs, actions, execs, b, i, j);
    SharesWithin(qs[j].vruntime[a] - qs[i].vruntime[a], ranA, ticksA, weights[a],
                 qs[j].vruntime[b] - qs[i].vruntime[b], ranB, ticksB, weights[b],
                 Max(0, slack + turn - Lag(qs[i], a, b)));
  }

  lemma SharesWithin(agedA: int, ranA: nat, ticksA: nat, weightA: nat,
                     agedB: int, ranB: nat, ticksB: nat, weightB: nat, gap: nat)
    requires FN.AgedBy(agedA, ranA, ticksA, weightA) && FN.AgedBy(agedB, ranB, ticksB, weightB) && agedA <= agedB + gap
    ensures FN.RanNoMore(ranA, ticksA + gap, weightA, ranB, weightB)
  {
    hide FN.RanNoMore;
    var aged := if agedA <= agedB then agedA else agedB;
    assert FN.AgedBy(aged, ranA, ticksA + gap, weightA) by {
      FS.MulMono(aged, agedA, weightA);
      FS.MulMono(agedA + ticksA, aged + ticksA + gap, weightA);
    }
    hide FN.AgedBy;
    FN.SharesOf(aged, ranA, ticksA + gap, weightA, agedB, ranB, ticksB, weightB);
  }

  // ---------------------------------------------------------------- the earliest of the others

  /** Three tasks queued under their own virtual times, `current` having run last. */
  function AllQueued(times: map<nat, int>, current: nat, min: int): VT.RunQueue {
    VT.RunQueue(times, Some(VT.Current(current, None)), min, times, times.Keys)
  }

  function Popped(q: VT.RunQueue, tid: nat): VT.RunQueue {
    q.(ready := q.ready - {tid}, current := Some(VT.Current(tid, None)))
  }

  function Woken(q: VT.RunQueue, tid: nat): VT.RunQueue {
    q.(ready := q.ready[tid := q.min - VT.WAKE_THRESHOLD])
  }

  /** The tasks of the run below: `a` takes turns of 1, `b` turns of 2, and `idle` has a late key. */
  datatype Trio = Trio(a: nat, b: nat, idle: nat, far: nat)

  /** The run queue when `a` has had `x` turns and `b` has had `y`. */
  function Times(t: Trio, x: nat, y: nat): map<nat, int> {
    map[t.idle := t.far, t.a := x, t.b := 2 * y + 1]
  }

  /** Step `r` of round `k`: three steps to a turn, two turns to a round. */
  function InRound(t: Trio, k: nat, r: nat): VT.RunQueue {
    var q, h := AllQueued(Times(t, k, k), t.b, k), AllQueued(Times(t, k + 1, k), t.a, k + 1);
    match r
    case 0 => q
    case 1 => Popped(q, t.a)
    case 2 => Woken(Popped(q, t.a), t.a)
    case 3 => h
    case 4 => Popped(h, t.b)
    case _ => Woken(Popped(h, t.b), t.b)
  }

  function StateAt(t: Trio, x: nat): VT.RunQueue {
    InRound(t, x / 6, x % 6)
  }

  function RoundAction(t: Trio, r: nat): VT.Action {
    match r
    case 0 => VT.Pop(t.a)
    case 1 => VT.Wake(t.a)
    case 2 => VT.Tick(1, Some(t.a))
    case 3 => VT.Pop(t.b)
    case 4 => VT.Wake(t.b)
    case _ => VT.Tick(2, Some(t.a))
  }

  predicate Distinct(t: Trio) {
    t.a != t.b && t.b != t.idle && t.idle != t.a
  }

  predicate IsLeast(times: map<nat, int>, tid: nat) {
    tid in times && forall t :: t in times ==> times[tid] <= times[t]
  }

  /** A turn of `tid`: it is taken, yields, and is accounted for. */
  lemma TurnOf(times: map<nat, int>, current: nat, min: int, tid: nat, advance: nat, next: nat)
    requires tid in times && current in times && min - VT.WAKE_THRESHOLD <= times[tid]
    requires IsLeast(times[tid := times[tid] + advance], next)
    ensures var q := AllQueued(times, current, min);
            var times' := times[tid := times[tid] + advance];
            && VT.Enabled(q, VT.Pop(tid), false) && VT.Step(q, VT.Pop(tid), false) == Popped(q, tid)
            && VT.Enabled(Popped(q, tid), VT.Wake(tid), false)
            && VT.Step(Popped(q, tid), VT.Wake(tid), false) == Woken(Popped(q, tid), tid)
            && VT.Enabled(Woken(Popped(q, tid), tid), VT.Tick(advance, Some(next)), false)
            && VT.Step(Woken(Popped(q, tid), tid), VT.Tick(advance, Some(next)), false)
            == AllQueued(times', tid, Max(min, times'[next]))
  {
    var q, times' := AllQueued(times, current, min), times[tid := times[tid] + advance];
    var p := Popped(q, tid);
    assert times[tid := times[tid]] == times;
    assert VT.Step(p, VT.Wake(tid), false) == Woken(p, tid);
    var w := Woken(p, tid);
    assert w.ready[tid := times'[tid]] == times';
    assert VT.Ticked(w, advance, false) == AllQueued(times', tid, min);
  }

  ghost predicate Goes(q: VT.RunQueue, a: VT.Action, q': VT.RunQueue) {
    VT.Enabled(q, a, false) && VT.Step(q, a, false) == q'
  }

  lemma FirstTurn(t: Trio, k: nat)
    requires Distinct(t) && 2 * k + 1 <= t.far
    ensures forall r :: 0 <= r < 3 ==> Goes(InRound(t, k, r), RoundAction(t, r), InRound(t, k, r + 1))
  {
    hide VT.Enabled, VT.Step, AllQueued, Popped, Woken;
    TimesGrow(t, k, k);
    TurnOf(Times(t, k, k), t.b, k, t.a, 1, t.a);
  }

  lemma SecondTurn(t: Trio, k: nat)
    requires Distinct(t) && 2 * k + 1 <= t.far
    ensures forall r :: 3 <= r < 5 ==> Goes(InRound(t, k, r), RoundAction(t, r), InRound(t, k, r + 1))
    ensures Goes(InRound(t, k, 5), RoundAction(t, 5), InRound(t, k + 1, 0))
  {
    hide VT.Enabled, VT.Step, AllQueued, Popped, Woken;
    TimesGrow(t, k + 1, k);
    TurnOf(Times(t, k + 1, k), t.a, k + 1, t.b, 2, t.a);
  }

  lemma RunStep(t: Trio, x: nat)
    requires Distinct(t) && 2 * (x / 6) + 1 <= t.far
    ensures Goes(StateAt(t, x), RoundAction(t, x % 6), StateAt(t, x + 1))
  {
    hide Goes, InRound, RoundAction;
    FirstTurn(t, x / 6);
    SecondTurn(t, x / 6);
    NextIndex(x);
  }

  lemma NextIndex(x: nat)
    ensures x % 6 == 5 ==> (x + 1) / 6 == x / 6 + 1 && (x + 1) % 6 == 0
    ensures x % 6 != 5 ==> (x + 1) / 6 == x / 6 && (x + 1) % 6 == x % 6 + 1
  {
  }

  lemma TimesGrow(t: Trio, x: nat, y: nat)
    requires Distinct(t)
    ensures Times(t, x, y)[t.a := x + 1] == Times(t, x + 1, y) && Times(t, x, y)[t.b := 2 * y + 3] == Times(t, x, y + 1)
  {
  }

  /** Both tasks stay runnable throughout. */
  lemma BothStay(t: Trio, x: nat)
    requires Distinct(t)
    ensures Staying(StateAt(t, x), t.a) && Staying(StateAt(t, x), t.b)
    ensures x % 3 == 0 ==> Settled(StateAt(t, x), t.a) && Settled(StateAt(t, x), t.b)
  {
  }

  /** Each task is taken because the other, which has run for longer than `ideal`, has to go. */
  lemma OtherIsTaken(t: Trio, x: nat, ran: nat, ideal: nat)
    requires Distinct(t) && 2 * (x / 6) + 1 <= t.far && x % 3 == 0 && ran > ideal
    ensures RoundAction(t, x % 6).Pop? && Chooses(StateAt(t, x), true, ran, ideal, t.a, RoundAction(t, x % 6).tid, false)
  {
    hide Chooses, AllQueued;
    var k := x / 6;
    TakenFrom(Times(t, k, k), t.b, k, t.a, t.a, ran, ideal);
    TakenFrom(Times(t, k + 1, k), t.a, k + 1, t.b, t.a, ran, ideal);
  }

  lemma TakenFrom(times: map<nat, int>, current: nat, min: int, tid: nat, next: nat, ran: nat, ideal: nat)
    requires current in times && IsLeast(times, next) && IsLeast(times - {current}, tid) && ran > ideal
    ensures Chooses(AllQueued(times, current, min), true, ran, ideal, next, tid, false)
  {
  }

  ghost function Trace(t: Trio, n: nat): seq<VT.RunQueue> {
    seq(6 * n + 1, (x: nat) => StateAt(t, x))
  }

  ghost function Turns(t: Trio, n: nat): seq<VT.Action> {
    seq(6 * n, (x: nat) => RoundAction(t, x % 6))
  }

  /**
   Two tasks that stay runnable and whose turns are short drift apart without bound: each time the
   current task, which has used up its slice, is sent away and the other taken, whoever is earlier.
   */
  lemma LagGrows(t: Trio, n: nat, ran: nat, ideal: nat)
    requires Distinct(t) && 2 * n + 1 <= t.far && ran > ideal
    ensures Compete(Trace(t, n), Turns(t, n), t.b, t.a, 0, 6 * n)
    ensures TurnsWithin(Trace(t, n), Turns(t, n), t.b, 2, 0, 6 * n)
    ensures forall x :: 0 <= x < 6 * n && Turns(t, n)[x].Pop? ==>
              Chooses(Trace(t, n)[x], true, ran, ideal, t.a, Turns(t, n)[x].tid, false)
    ensures Lag(Trace(t, n)[0], t.b, t.a) == 1 && Lag(Trace(t, n)[6 * n], t.b, t.a) == n + 1
  {
    hide StateAt, InRound, RoundAction, Chooses, StaysRunnable, TurnsWithin, VT.IdealRun;
    TraceIsRun(t, n);
    TraceStays(t, n, t.a);
    TraceStays(t, n, t.b);
    TraceTurns(t, n);
    RoundsEnd(t, 0);
    RoundsEnd(t, n);
    assert n > 0 ==> Turns(t, n)[0].Pop? by {
      PopsEveryThird(t, 0);
    }
    forall x | 0 <= x < 6 * n && Turns(t, n)[x].Pop?
      ensures Chooses(Trace(t, n)[x], true, ran, ideal, t.a, Turns(t, n)[x].tid, false)
    {
      PopsEveryThird(t, x);
      OtherIsTaken(t, x, ran, ideal);
    }
  }

  lemma TraceIsRun(t: Trio, n: nat)
    requires Distinct(t) && 2 * n + 1 <= t.far
    ensures VT.IdealRun(Trace(t, n), Turns(t, n))
  {
    hide StateAt, RoundAction, VT.Enabled, VT.Step;
    var qs, actions := Trace(t, n), Turns(t, n);
    forall x | 0 <= x < |actions|
      ensures VT.Enabled(qs[x], actions[x], false) && qs[x + 1] == VT.Step(qs[x], actions[x], false)
    {
      RunStep(t, x);
      assert qs[x] == StateAt(t, x) && qs[x + 1] == StateAt(t, x + 1) && actions[x] == RoundAction(t, x % 6);
    }
  }

  lemma PopsEveryThird(t: Trio, x: nat)
    ensures RoundAction(t, x % 6).Pop? <==> x % 3 == 0
    ensures RoundAction(t, x % 6) == VT.Pop(t.b) && t.a != t.b ==> x % 6 == 3
  {
  }

  lemma TraceStays(t: Trio, n: nat, tid: nat)
    requires Distinct(t) && (tid == t.a || tid == t.b)
    ensures StaysRunnable(Trace(t, n), Turns(t, n), tid, 0, 6 * n)
  {
    hide StateAt, Staying, Settled;
    var qs, actions := Trace(t, n), Turns(t, n);
    forall x | 0 <= x <= 6 * n ensures Staying(qs[x], tid) {
      BothStay(t, x);
    }
    forall x | 0 <= x < 6 * n && actions[x].Pop? ensures Settled(qs[x], tid) {
      PopsEveryThird(t, x);
      BothStay(t, x);
    }
  }

  lemma TraceTurns(t: Trio, n: nat)
    requires Distinct(t)
    ensures TurnsWithin(Trace(t, n), Turns(t, n), t.b, 2, 0, 6 * n)
  {
    hide StateAt, RoundAction, AgesWithin, InTurn;
    var qs, actions := Trace(t, n), Turns(t, n);
    forall k, m | 0 <= k < m <= 6 * n && InTurn(actions, k, m) && actions[k] == VT.Pop(t.b)
      ensures AgesWithin(qs[k], qs[m], t.b, 2)
    {
      TurnIsShort(t, n, k, m);
      TurnAges(t, k, m);
      assert qs[k] == StateAt(t, k) && qs[m] == StateAt(t, m);
    }
  }

  lemma TurnIsShort(t: Trio, n: nat, k: nat, m: nat)
    requires Distinct(t) && InTurn(Turns(t, n), k, m) && Turns(t, n)[k] == VT.Pop(t.b)
    ensures k % 6 == 3 && m <= k + 3
  {
    hide RoundAction;
    PopsEveryThird(t, k);
    assert (k + 3) % 3 == 0;
    PopsEveryThird(t, k + 3);
    if k + 3 < |Turns(t, n)| {
      assert Turns(t, n)[k + 3] == RoundAction(t, (k + 3) % 6);
    }
  }

  lemma TurnAges(t: Trio, k: nat, m: nat)
    requires Distinct(t) && k % 6 == 3 && k < m <= k + 3
    ensures AgesWithin(StateAt(t, k), StateAt(t, m), t.b, 2)
  {
    assert m == k + 3 ==> m % 6 == 0 && m / 6 == k / 6 + 1;
    assert m < k + 3 ==> 3 <= m % 6 && m / 6 == k / 6;
  }

  lemma RoundsEnd(t: Trio, k: nat)
    requires Distinct(t)
    ensures var q := StateAt(t, 6 * k);
            Staying(q, t.a) && Staying(q, t.b) && q.vruntime[t.a] == k && q.vruntime[t.b] == 2 * k + 1 && q.min == k
  {
  }
}
