/**
 Wrapping virtual time. One run queue is described over any integers; the kernel runs it on 64-bit
 words that wrap, and the same text with `wrap == false` is the run queue it should be. While all
 live values span less than 2^63 the two agree step by step, so `min_vruntime` only moves forward.
 */
module VirtualTime {
  import opened Machine

  const WAKE_THRESHOLD: nat := 3_000_000

  // ---------------------------------------------------------------- words that wrap

  function Word(x: int, wrap: bool): int {
    if wrap then Usize(x) else x
  }

  /** `VRuntime::delta`: the signed difference. */
  function Delta(x: int, y: int, wrap: bool): int {
    if wrap then Isize(x - y) else x - y
  }

  /** The signed difference of two words is the true difference exactly when that fits 64 signed bits. */
  lemma DeltaAgreesIff(x: int, y: int)
    ensures Delta(Usize(x), Usize(y), true) == x - y <==> -TWO_63 <= x - y < TWO_63
  {
    hide Usize, Isize;
    SameDifference(x, y);
    SameWord(x - y, Usize(x) - Usize(y));
    IsizeExact(x - y);
  }

  lemma SameDifference(x: int, y: int)
    ensures ((x - y) - (Usize(x) - Usize(y))) % TWO_64 == 0
  {
  }

  lemma IsizeExact(x: int)
    ensures Isize(x) == x <==> -TWO_63 <= x < TWO_63
  {
  }

  lemma SameWord(x: int, y: int)
    requires (x - y) % TWO_64 == 0
    ensures Isize(x) == Isize(y)
  {
  }

  /** `Ord::max` on virtual times. */
  function Later(x: int, y: int, wrap: bool): int {
    if Delta(x, y, wrap) > 0 then x else y
  }

  /** `Ord::min` on virtual times. */
  function Earlier(x: int, y: int, wrap: bool): int {
    if Delta(x, y, wrap) > 0 then y else x
  }

  predicate Near(x: int, y: int) {
    -TWO_63 < x - y < TWO_63
  }

  lemma LaterAgrees(x: int, y: int)
    requires Near(x, y)
    ensures Later(Usize(x), Usize(y), true) == Usize(Later(x, y, false))
    ensures Earlier(Usize(x), Usize(y), true) == Usize(Earlier(x, y, false))
  {
    DeltaAgreesIff(x, y);
  }

  lemma WordOfWord(x: int, y: int)
    ensures Usize(Usize(x) + y) == Usize(x + y)
  {
  }

  // ---------------------------------------------------------------- one run queue

  /**
   The task that ran last. A task that has completed leaves the table, and its tid may be given out
   again; the queue still holds it, with a virtual time of its own (`finished`), until the next pop.
   */
  datatype Current = Current(tid: nat, finished: Option<int>)

  /** Keys of the queued tasks, the running task, and the virtual time and `on_rq` flag of each task. */
  datatype RunQueue = RunQueue(
    ready: map<nat, int>, current: Option<Current>, min: int, vruntime: map<nat, int>, onRq: set<nat>)

  predicate IsCurrent(q: RunQueue, tid: nat) {
    q.current.Some? && q.current.value.tid == tid
  }

  /** The current task has not completed. */
  predicate RunsOn(q: RunQueue) {
    q.current.Some? && q.current.value.finished.None?
  }

  /** A current task that has not completed is in the table. */
  predicate CurrentKnown(q: RunQueue) {
    RunsOn(q) ==> q.current.value.tid in q.vruntime
  }

  /** The virtual time of the current task, wherever it is kept. */
  function CurrentTime(q: RunQueue): int
    requires q.current.Some? && CurrentKnown(q)
  {
    if q.current.value.finished.Some? then q.current.value.finished.value else q.vruntime[q.current.value.tid]
  }

  /** `parent` is the virtual time of the parent at a fork, which may run on another CPU. */
  datatype Action =
    | Spawn(tid: nat, parent: Option<int>, slice: nat)
    | Wake(tid: nat)
    | Pop(tid: nat)
    | Tick(advance: nat, next: Option<nat>)
    | Remove(tid: nat, next: Option<nat>)
    | RemoveFinished(next: Option<nat>)
    | Finish(tid: nat)
    | Arrive(tid: nat, vruntime: int, key: int)
    | Depart(tid: nat)

  /** `next` is what `peek` may return: a queued task whose key no other key precedes. */
  predicate Peeks(q: RunQueue, next: Option<nat>, wrap: bool) {
    match next
    case None => q.ready == map[]
    case Some(tid) => tid in q.ready && forall t :: t in q.ready ==> Delta(q.ready[tid], q.ready[t], wrap) <= 0
  }

  predicate Enabled(q: RunQueue, a: Action, wrap: bool) {
    match a
    case Spawn(tid, _, _) => tid !in q.vruntime
    case Wake(tid) => tid in q.vruntime
    case Pop(tid) => tid in q.ready && tid in q.vruntime
    case Tick(_, next) => q.current.Some? && CurrentKnown(q) && Peeks(Ticked(q, a.advance, wrap), next, wrap)
    case Remove(tid, next) => tid in q.vruntime && Peeks(Dropped(q, tid), next, wrap) && CurrentKnown(q)
    case RemoveFinished(next) => q.current.Some? && !RunsOn(q) && Peeks(Unqueued(q, q.current.value.tid), next, wrap)
    case Finish(tid) => tid in q.vruntime && tid !in q.ready
    case Arrive(_, _, _) => true
    case Depart(tid) => tid in q.ready && !IsCurrent(q, tid)
  }

  /** `task_tick` before the minimum is brought up to date. */
  function Ticked(q: RunQueue, advance: nat, wrap: bool): (r: RunQueue)
    requires q.current.Some? && CurrentKnown(q)
    ensures CurrentKnown(r)
  {
    var tid := q.current.value.tid;
    var v := Word(CurrentTime(q) + advance, wrap);
    var r := q.(ready := if tid in q.ready then q.ready[tid := v] else q.ready);
    if RunsOn(q) then r.(vruntime := q.vruntime[tid := v]) else r.(current := Some(Current(tid, Some(v))))
  }

  function Unqueued(q: RunQueue, tid: nat): RunQueue {
    q.(ready := q.ready - {tid})
  }

  function Dropped(q: RunQueue, tid: nat): RunQueue {
    q.(ready := q.ready - {tid}, onRq := q.onRq - {tid})
  }

  /** `update_min_vruntime`. */
  function UpdateMin(q: RunQueue, next: Option<nat>, wrap: bool): RunQueue
    requires CurrentKnown(q) && (next.Some? ==> next.value in q.ready)
  {
    var v := if RunsOn(q) && q.current.value.tid in q.onRq then CurrentTime(q) else q.min;
    var w :=
      if next.None? then v
      else if q.current.None? then q.ready[next.value]
      else Earlier(v, q.ready[next.value], wrap);
    q.(min := Later(q.min, w, wrap))
  }

  function Step(q: RunQueue, a: Action, wrap: bool): RunQueue
    requires Enabled(q, a, wrap)
  {
    match a
    case Spawn(tid, parent, slice) =>
      var base := if parent.None? then q.min else Word(parent.value, wrap);
      var v := Later(base, Word(q.min + slice, wrap), wrap);
      q.(vruntime := q.vruntime[tid := v], ready := q.ready[tid := v], onRq := q.onRq + {tid})
    case Wake(tid) =>
      var v := Word(q.min - WAKE_THRESHOLD, wrap);
      q.(vruntime := q.vruntime[tid := Later(q.vruntime[tid], v, wrap)], ready := q.ready[tid := v], onRq := q.onRq + {tid})
    case Pop(tid) => q.(ready := q.ready - {tid}, current := Some(Current(tid, None)))
    case Tick(advance, next) => UpdateMin(Ticked(q, advance, wrap), next, wrap)
    case Remove(tid, next) =>
      var contained := tid in q.ready || IsCurrent(q, tid);
      if contained then UpdateMin(Dropped(q, tid), next, wrap) else Dropped(q, tid)
    case RemoveFinished(next) => UpdateMin(Unqueued(q, q.current.value.tid), next, wrap)
    case Finish(tid) =>
      q.(vruntime := q.vruntime - {tid}, onRq := q.onRq - {tid},
         current := if RunsOn(q) && IsCurrent(q, tid) then Some(Current(tid, Some(q.vruntime[tid]))) else q.current)
    case Arrive(tid, v, key) =>
      q.(vruntime := q.vruntime[tid := Word(v, wrap)], ready := q.ready[tid := Word(key, wrap)], onRq := q.onRq + {tid})
    case Depart(tid) => q.(ready := q.ready - {tid}, vruntime := q.vruntime - {tid}, onRq := q.onRq - {tid})
  }

  // ---------------------------------------------------------------- the kernel's queue against the ideal one

  function WrapMap(m: map<nat, int>): map<nat, int> {
    map t | t in m :: Usize(m[t])
  }

  /** The 64-bit words that hold an ideal state. */
  function Wrapped(q: RunQueue): RunQueue {
    q.(ready := WrapMap(q.ready), current := WrapCurrent(q.current), min := Usize(q.min), vruntime := WrapMap(q.vruntime))
  }

  function WrapCurrent(current: Option<Current>): Option<Current> {
    if current.Some? && current.value.finished.Some?
    then Some(Current(current.value.tid, Some(Usize(current.value.finished.value))))
    else current
  }

  /** A virtual time that some later step may look at. */
  predicate IsLive(q: RunQueue, x: int) {
    || x == q.min || x in q.ready.Values || x in q.vruntime.Values
    || (q.current.Some? && q.current.value.finished == Some(x))
  }

  /** The virtual time that an action computes, besides those already in the queue. */
  function Computed(q: RunQueue, a: Action): int {
    match a
    case Spawn(_, _, slice) => q.min + slice
    case Wake(_) => q.min - WAKE_THRESHOLD
    case Tick(advance, _) =>
      if q.current.Some? && CurrentKnown(q) then CurrentTime(q) + advance else q.min
    case _ => q.min
  }

  predicate Relevant(q: RunQueue, a: Action, x: int) {
    IsLive(q, x) || x == Computed(q, a) || (a.Spawn? && a.parent == Some(x))
  }

  /** All virtual times in play span less than 2^63. */
  ghost predicate Narrow(q: RunQueue, a: Action) {
    forall x, y :: Relevant(q, a, x) && Relevant(q, a, y) ==> Near(x, y)
  }

  lemma UpdateMinAgrees(q: RunQueue, next: Option<nat>)
    requires CurrentKnown(q) && (next.Some? ==> next.value in q.ready)
    requires forall x, y :: IsLive(q, x) && IsLive(q, y) ==> Near(x, y)
    ensures UpdateMin(Wrapped(q), next, true) == Wrapped(UpdateMin(q, next, false))
  {
    hide Usize, Near, Later, Earlier;
    var v := if RunsOn(q) && q.current.value.tid in q.onRq then CurrentTime(q) else q.min;
    assert IsLive(q, v) && IsLive(q, q.min);
    if next.Some? {
      var key := q.ready[next.value];
      assert key in q.ready.Values;
      assert IsLive(q, key);
      LaterAgrees(v, key);
      assert Earlier(v, key, false) == v || Earlier(v, key, false) == key by {
        EarlierIsOne(v, key);
      }
      LaterAgrees(q.min, Earlier(v, key, false));
      LaterAgrees(q.min, key);
    }
    LaterAgrees(q.min, v);
  }

  lemma EarlierIsOne(x: int, y: int)
    ensures Earlier(x, y, false) == x || Earlier(x, y, false) == y
  {
  }

  lemma WrapMapUpdate(m: map<nat, int>, t: nat, x: int)
    ensures WrapMap(m[t := x]) == WrapMap(m)[t := Usize(x)]
    ensures WrapMap(m - {t}) == WrapMap(m) - {t}
  {
    hide Usize;
  }

  lemma PeeksAgree(q: RunQueue, next: Option<nat>)
    requires forall x, y :: x in q.ready.Values && y in q.ready.Values ==> Near(x, y)
    ensures Peeks(Wrapped(q), next, true) <==> Peeks(q, next, false)
  {
    hide Usize, Delta;
    assert WrapMap(q.ready).Keys == q.ready.Keys;
    assert q.ready == map[] <==> q.ready.Keys == {};
    assert WrapMap(q.ready) == map[] <==> WrapMap(q.ready).Keys == {};
    if next.Some? && next.value in q.ready {
      forall t | t in q.ready
        ensures Delta(Usize(q.ready[next.value]), Usize(q.ready[t]), true) == Delta(q.ready[next.value], q.ready[t], false)
      {
        assert q.ready[t] in q.ready.Values && q.ready[next.value] in q.ready.Values;
        DeltaNear(q.ready[next.value], q.ready[t]);
      }
    }
  }

  lemma DeltaNear(x: int, y: int)
    requires Near(x, y)
    ensures Delta(Usize(x), Usize(y), true) == Delta(x, y, false)
  {
    DeltaAgreesIff(x, y);
  }

  lemma TickedAgrees(q: RunQueue, advance: nat)
    requires q.current.Some? && CurrentKnown(q)
    ensures CurrentKnown(Wrapped(q)) && Ticked(Wrapped(q), advance, true) == Wrapped(Ticked(q, advance, false))
  {
    hide Usize;
    var tid := q.current.value.tid;
    WordOfWord(CurrentTime(q), advance);
    WrapMapUpdate(q.vruntime, tid, CurrentTime(q) + advance);
    WrapMapUpdate(q.ready, tid, CurrentTime(q) + advance);
  }

  lemma TickedLive(q: RunQueue, a: Action, x: int)
    requires a.Tick? && q.current.Some? && CurrentKnown(q) && IsLive(Ticked(q, a.advance, false), x)
    ensures Relevant(q, a, x)
  {
    var tid, r := q.current.value.tid, Ticked(q, a.advance, false);
    if x in r.vruntime.Values {
      var t :| t in r.vruntime && r.vruntime[t] == x;
      assert t != tid ==> t in q.vruntime && q.vruntime[t] == x;
    } else if x in r.ready.Values {
      var t :| t in r.ready && r.ready[t] == x;
      assert t != tid ==> t in q.ready && q.ready[t] == x;
    }
  }

  lemma UnqueuedLive(q: RunQueue, tid: nat, x: int)
    requires IsLive(Unqueued(q, tid), x) || IsLive(Dropped(q, tid), x)
    ensures IsLive(q, x)
  {
    var r := Unqueued(q, tid);
    if x in r.ready.Values {
      var t :| t in r.ready && r.ready[t] == x;
      assert t in q.ready && q.ready[t] == x;
    }
  }

  lemma EnabledAgrees(q: RunQueue, a: Action)
    requires Enabled(q, a, false) && Narrow(q, a)
    ensures Enabled(Wrapped(q), a, true)
  {
    hide Usize, Near, Delta, Peeks, Ticked;
    match a
    case Tick(advance, next) =>
      TickedAgrees(q, advance);
      var r := Ticked(q, advance, false);
      forall x, y | x in r.ready.Values && y in r.ready.Values
        ensures Near(x, y)
      {
        TickedLive(q, a, x);
        TickedLive(q, a, y);
      }
      PeeksAgree(r, next);
    case Remove(tid, next) =>
      var r := Dropped(q, tid);
      forall x, y | x in r.ready.Values && y in r.ready.Values
        ensures Near(x, y)
      {
        UnqueuedLive(q, tid, x);
        UnqueuedLive(q, tid, y);
        assert Relevant(q, a, x) && Relevant(q, a, y);
      }
      PeeksAgree(r, next);
      WrapMapUpdate(q.ready, tid, 0);
    case RemoveFinished(next) =>
      var r := Unqueued(q, q.current.value.tid);
      forall x, y | x in r.ready.Values && y in r.ready.Values
        ensures Near(x, y)
      {
        UnqueuedLive(q, q.current.value.tid, x);
        UnqueuedLive(q, q.current.value.tid, y);
        assert Relevant(q, a, x) && Relevant(q, a, y);
      }
      PeeksAgree(r, next);
      WrapMapUpdate(q.ready, q.current.value.tid, 0);
    case _ =>
  }

  lemma TickAgrees(q: RunQueue, a: Action)
    requires a.Tick? && Enabled(q, a, false) && Enabled(Wrapped(q), a, true) && Narrow(q, a)
    ensures Step(Wrapped(q), a, true) == Wrapped(Step(q, a, false))
  {
    hide Usize, Near, Delta, Peeks, Ticked, UpdateMin, Relevant, IsLive;
    TickedAgrees(q, a.advance);
    var r := Ticked(q, a.advance, false);
    forall x, y | IsLive(r, x) && IsLive(r, y)
      ensures Near(x, y)
    {
      TickedLive(q, a, x);
      TickedLive(q, a, y);
    }
    PeeksIn(r, a.next, false);
    UpdateMinAgrees(r, a.next);
  }

  lemma PeeksIn(q: RunQueue, next: Option<nat>, wrap: bool)
    requires Peeks(q, next, wrap)
    ensures next.Some? ==> next.value in q.ready
  {
  }

  lemma RemoveAgrees(q: RunQueue, a: Action)
    requires a.Remove? && Enabled(q, a, false) && Enabled(Wrapped(q), a, true) && Narrow(q, a)
    ensures Step(Wrapped(q), a, true) == Wrapped(Step(q, a, false))
  {
    hide Usize, Near, Delta, Peeks, UpdateMin, IsLive;
    WrapMapUpdate(q.ready, a.tid, 0);
    var r := Dropped(q, a.tid);
    assert Dropped(Wrapped(q), a.tid) == Wrapped(r);
    forall x, y | IsLive(r, x) && IsLive(r, y)
      ensures Near(x, y)
    {
      UnqueuedLive(q, a.tid, x);
      UnqueuedLive(q, a.tid, y);
      assert Relevant(q, a, x) && Relevant(q, a, y);
    }
    PeeksIn(r, a.next, false);
    UpdateMinAgrees(r, a.next);
  }

  lemma RemoveFinishedAgrees(q: RunQueue, a: Action)
    requires a.RemoveFinished? && Enabled(q, a, false) && Enabled(Wrapped(q), a, true) && Narrow(q, a)
    ensures Step(Wrapped(q), a, true) == Wrapped(Step(q, a, false))
  {
    hide Usize, Near, Delta, Peeks, UpdateMin, IsLive;
    var tid := q.current.value.tid;
    WrapMapUpdate(q.ready, tid, 0);
    var r := Unqueued(q, tid);
    assert Unqueued(Wrapped(q), tid) == Wrapped(r);
    forall x, y | IsLive(r, x) && IsLive(r, y)
      ensures Near(x, y)
    {
      UnqueuedLive(q, tid, x);
      UnqueuedLive(q, tid, y);
      assert Relevant(q, a, x) && Relevant(q, a, y);
    }
    PeeksIn(r, a.next, false);
    UpdateMinAgrees(r, a.next);
  }

  lemma SpawnAgrees(q: RunQueue, a: Action)
    requires a.Spawn? && Enabled(q, a, false) && Narrow(q, a)
    ensures Enabled(Wrapped(q), a, true) && Step(Wrapped(q), a, true) == Wrapped(Step(q, a, false))
  {
    hide Usize, Near, Delta, Later;
    var base := if a.parent.None? then q.min else a.parent.value;
    assert Relevant(q, a, base) && Relevant(q, a, q.min + a.slice);
    WordOfWord(q.min, a.slice);
    LaterAgrees(base, q.min + a.slice);
    var v := Later(base, q.min + a.slice, false);
    WrapMapUpdate(q.vruntime, a.tid, v);
    WrapMapUpdate(q.ready, a.tid, v);
  }

  lemma WakeAgrees(q: RunQueue, a: Action)
    requires a.Wake? && Enabled(q, a, false) && Narrow(q, a)
    ensures Enabled(Wrapped(q), a, true) && Step(Wrapped(q), a, true) == Wrapped(Step(q, a, false))
  {
    hide Usize, Near, Delta, Later;
    var v := q.min - WAKE_THRESHOLD;
    assert q.vruntime[a.tid] in q.vruntime.Values;
    assert Relevant(q, a, q.vruntime[a.tid]) && Relevant(q, a, v);
    WordOfWord(q.min, 0 - WAKE_THRESHOLD);
    LaterAgrees(q.vruntime[a.tid], v);
    WrapMapUpdate(q.vruntime, a.tid, Later(q.vruntime[a.tid], v, false));
    WrapMapUpdate(q.ready, a.tid, v);
  }

  /** A step on wrapping words is the step on unbounded integers, wrapped. */
  lemma StepAgrees(q: RunQueue, a: Action)
    requires Enabled(q, a, false) && Narrow(q, a)
    ensures Enabled(Wrapped(q), a, true) && Step(Wrapped(q), a, true) == Wrapped(Step(q, a, false))
  {
    hide Usize, Narrow, Delta, Later, UpdateMin, Ticked, Peeks;
    EnabledAgrees(q, a);
    match a
    case Spawn(_, _, _) => SpawnAgrees(q, a);
    case Wake(_) => WakeAgrees(q, a);
    case Tick(_, _) => TickAgrees(q, a);
    case Remove(_, _) => RemoveAgrees(q, a);
    case RemoveFinished(_) => RemoveFinishedAgrees(q, a);
    case Finish(tid) => WrapMapUpdate(q.vruntime, tid, 0);
    case Pop(tid) => WrapMapUpdate(q.ready, tid, 0);
    case Arrive(tid, v, key) =>
      WrapMapUpdate(q.vruntime, tid, v);
      WrapMapUpdate(q.ready, tid, key);
    case Depart(tid) =>
      WrapMapUpdate(q.vruntime, tid, 0);
      WrapMapUpdate(q.ready, tid, 0);
  }

  // ---------------------------------------------------------------- whole runs

  ghost predicate IsRun(qs: seq<RunQueue>, actions: seq<Action>) {
    && |qs| == |actions| + 1
    && (forall i :: 0 <= i < |actions| ==>
          Enabled(qs[i], actions[i], false) && Narrow(qs[i], actions[i]) && qs[i + 1] == Step(qs[i], actions[i], false))
  }

  /** Any run on unbounded integers, however far its values spread. */
  ghost predicate IdealRun(qs: seq<RunQueue>, actions: seq<Action>) {
    && |qs| == |actions| + 1
    && forall i :: 0 <= i < |actions| ==> Enabled(qs[i], actions[i], false) && qs[i + 1] == Step(qs[i], actions[i], false)
  }

  /** The kernel's own run: the same actions on words, from the wrapped start state. */
  ghost function KernelState(q: RunQueue, actions: seq<Action>, i: nat): Option<RunQueue>
    requires i <= |actions|
  {
    if i == 0 then Some(Wrapped(q))
    else
      var before := KernelState(q, actions, i - 1);
      if before.Some? && Enabled(before.value, actions[i - 1], true) then Some(Step(before.value, actions[i - 1], true))
      else None
  }

  lemma {:induction false} KernelRunAgrees(qs: seq<RunQueue>, actions: seq<Action>, i: nat)
    requires IsRun(qs, actions) && i < |qs|
    ensures KernelState(qs[0], actions, i) == Some(Wrapped(qs[i]))
  {
    hide Step, Enabled, Narrow;
    if i > 0 {
      KernelRunAgrees(qs, actions, i - 1);
      StepAgrees(qs[i - 1], actions[i - 1]);
    }
  }

  lemma StepKeepsMin(q: RunQueue, a: Action)
    requires Enabled(q, a, false)
    ensures q.min <= Step(q, a, false).min
  {
    hide Peeks, Usize, Isize;
  }

  lemma {:induction false} RunKeepsMin(qs: seq<RunQueue>, actions: seq<Action>, i: nat, j: nat)
    requires IsRun(qs, actions) && i <= j < |qs|
    ensures qs[i].min <= qs[j].min
  {
    hide Step, Enabled, Narrow;
    if i < j {
      RunKeepsMin(qs, actions, i, j - 1);
      StepKeepsMin(qs[j - 1], actions[j - 1]);
    }
  }

  /**
   Over every run whose live values span less than 2^63 at each step, the kernel's state is the
   ideal one wrapped, and its `min_vruntime` never moves backwards: it is the wrapped value of a
   sequence that only grows, through early wakes below zero as well.
   */
  lemma MinNeverBackwards(qs: seq<RunQueue>, actions: seq<Action>, i: nat, j: nat)
    requires IsRun(qs, actions) && i <= j < |qs|
    ensures KernelState(qs[0], actions, i) == Some(Wrapped(qs[i]))
    ensures KernelState(qs[0], actions, j) == Some(Wrapped(qs[j]))
    ensures qs[i].min <= qs[j].min
    ensures qs[j].min - qs[i].min < TWO_63 ==>
              Delta(KernelState(qs[0], actions, j).value.min, KernelState(qs[0], actions, i).value.min, true) >= 0
  {
    hide IsRun, KernelState, Delta, Usize;
    KernelRunAgrees(qs, actions, i);
    KernelRunAgrees(qs, actions, j);
    RunKeepsMin(qs, actions, i, j);
    DeltaAgreesIff(qs[j].min, qs[i].min);
  }

  // ---------------------------------------------------------------- where the minimum and the entities go

  /** A queued key, or the virtual time of a current entity that is still on the queue. */
  ghost predicate Competes(q: RunQueue, x: int) {
    || x in q.ready.Values
    || (RunsOn(q) && CurrentKnown(q) && q.current.value.tid in q.onRq && x == CurrentTime(q))
  }

  /**
   The minimum moves up to the least competing virtual time and never past one; it stays while
   the current entity is off the queue or has completed.
   */
  lemma UpdateMinExact(q: RunQueue, next: Option<nat>)
    requires CurrentKnown(q) && Peeks(q, next, false)
    ensures var min := UpdateMin(q, next, false).min;
            if q.current.Some? && !(RunsOn(q) && q.current.value.tid in q.onRq) then min == q.min
            else
              && (min == q.min || Competes(q, min))
              && (forall x :: Competes(q, x) ==> min == q.min || min <= x)
              && ((exists x :: Competes(q, x)) && (forall x :: Competes(q, x) ==> x > q.min) ==> min > q.min)
  {
    if next.Some? {
      assert q.ready[next.value] in q.ready.Values;
      assert Competes(q, q.ready[next.value]);
    }
    if RunsOn(q) && q.current.value.tid in q.onRq {
      assert Competes(q, CurrentTime(q));
    }
    forall x | x in q.ready.Values ensures next.Some? && q.ready[next.value] <= x {
      var t :| t in q.ready && q.ready[t] == x;
    }
  }

  /**
   Where an action places an entity: a spawn at least one slice after the minimum and under that key, a
   wake never backwards and under the key at the threshold.
   */
  lemma PlacedFairly(q: RunQueue, a: Action)
    requires Enabled(q, a, false)
    ensures a.Spawn? ==>
              var v := Step(q, a, false).vruntime[a.tid];
              && v >= q.min + a.slice && (a.parent.Some? ==> v >= a.parent.value)
              && (v == q.min + a.slice || (a.parent.Some? && v == a.parent.value))
              && a.tid in Step(q, a, false).ready && Step(q, a, false).ready[a.tid] == v
    ensures a.Wake? ==>
              var v := Step(q, a, false).vruntime[a.tid];
              && v >= q.vruntime[a.tid] && v >= q.min - 3_000_000
              && (v == q.vruntime[a.tid] || v == q.min - 3_000_000)
              && a.tid in Step(q, a, false).ready && Step(q, a, false).ready[a.tid] == q.min - 3_000_000
    ensures a.Tick? ==>
              Step(q, a, false).vruntime
              == if RunsOn(q) then q.vruntime[q.current.value.tid := CurrentTime(q) + a.advance] else q.vruntime
    ensures a.Tick? ==>
              var q' := Step(q, a, false);
              && q'.current.Some? && CurrentKnown(q') && CurrentTime(q') == CurrentTime(q) + a.advance
              && (q.current.value.tid in q.ready ==> q'.ready == q.ready[q.current.value.tid := CurrentTime(q')])
  {
    hide Peeks;
  }

  /** An entity is flagged `on_rq` exactly if what last happened to it was a spawn, a wake or an arrival, and no removal. */
  lemma FlaggedIff(q: RunQueue, a: Action, tid: nat, wrap: bool)
    requires Enabled(q, a, wrap)
    ensures tid in Step(q, a, wrap).onRq <==>
            match a
            case Spawn(t, _, _) => t == tid || tid in q.onRq
            case Wake(t) => t == tid || tid in q.onRq
            case Arrive(t, _, _) => t == tid || tid in q.onRq
            case Remove(t, _) => t != tid && tid in q.onRq
            case Depart(t) => t != tid && tid in q.onRq
            case Finish(t) => t != tid && tid in q.onRq
            case _ => tid in q.onRq
  {
    hide Peeks, Later, Earlier, Word;
  }

  lemma StepNeverGainsTime(q: RunQueue, a: Action, tid: nat)
    requires Enabled(q, a, false) && tid in q.vruntime
    requires !(a.Arrive? && a.tid == tid) && a != Depart(tid) && a != Finish(tid)
    ensures tid in Step(q, a, false).vruntime && q.vruntime[tid] <= Step(q, a, false).vruntime[tid]
  {
    hide Peeks;
  }

  /** Until an entity completes or leaves its CPU, no run of wakes, ticks and removals ever moves its time backwards. */
  lemma {:induction false} EntityNeverGainsTime(qs: seq<RunQueue>, actions: seq<Action>, i: nat, j: nat, tid: nat)
    requires IsRun(qs, actions) && i <= j < |qs| && tid in qs[i].vruntime
    requires forall k :: i <= k < j ==>
               actions[k] != Finish(tid) && actions[k] != Depart(tid) && !(actions[k].Arrive? && actions[k].tid == tid)
    ensures tid in qs[j].vruntime && qs[i].vruntime[tid] <= qs[j].vruntime[tid]
  {
    hide Step, Enabled, Narrow;
    if i < j {
      EntityNeverGainsTime(qs, actions, i, j - 1, tid);
      StepNeverGainsTime(qs[j - 1], actions[j - 1], tid);
    }
  }

  // ---------------------------------------------------------------- a tid given out again

  /**
   A queued entity leaves the queue when it is popped, removed or stolen, and also when the one that ran
   last has completed and was called the same; its key changes when it is woken or placed anew, and by a
   tick of the current one, itself or its namesake.
   */
  lemma LeavesQueueIff(q: RunQueue, a: Action, tid: nat, wrap: bool)
    requires Enabled(q, a, wrap) && tid in q.ready
    ensures tid !in Step(q, a, wrap).ready <==>
            a == Pop(tid) || (a.Remove? && a.tid == tid) || a == Depart(tid) || (a.RemoveFinished? && IsCurrent(q, tid))
    ensures tid in Step(q, a, wrap).ready && Step(q, a, wrap).ready[tid] != q.ready[tid] ==>
            ((a.Spawn? || a.Wake? || a.Arrive?) && a.tid == tid) || (a.Tick? && IsCurrent(q, tid))
  {
    hide Peeks, Later, Earlier, Word;
  }

  /** No queued task is called like a completed one that the queue still holds. */
  predicate NoNamesake(q: RunQueue) {
    q.current.Some? && !RunsOn(q) ==> q.current.value.tid !in q.ready
  }

  /** The action queues a task called like a completed one that the queue still holds. */
  predicate QueuesNamesake(q: RunQueue, a: Action) {
    (a.Spawn? || a.Wake? || a.Arrive?) && !RunsOn(q) && IsCurrent(q, a.tid)
  }

  /**
   So it stays unless such a task is queued, and then the queue loses nobody when the run loop puts the
   completed one away.
   */
  lemma NoNamesakeKept(q: RunQueue, a: Action, wrap: bool)
    requires Enabled(q, a, wrap) && NoNamesake(q)
    ensures NoNamesake(Step(q, a, wrap)) <==> !QueuesNamesake(q, a)
    ensures a.RemoveFinished? ==> Step(q, a, wrap).ready == q.ready
    ensures a.Tick? && !RunsOn(q) ==> Step(q, a, wrap).ready == q.ready
  {
    hide Peeks, Later, Earlier, Word;
  }

  /**
   If a task completes and its tid is given to a new task on the same CPU before the run loop has put
   the completed one away, the new task is off the queue without having run.
   */
  lemma NamesakeDequeued(q: RunQueue, tid: nat, slice: nat, wrap: bool) returns (q': RunQueue)
    requires q.ready == map[] && RunsOn(q) && IsCurrent(q, tid) && tid in q.vruntime
    ensures Enabled(q, Remove(tid, None), wrap)
    ensures var q1 := Step(q, Remove(tid, None), wrap);
            Enabled(q1, Finish(tid), wrap) &&
            var q2 := Step(q1, Finish(tid), wrap);
            Enabled(q2, Spawn(tid, None, slice), wrap) &&
            var q3 := Step(q2, Spawn(tid, None, slice), wrap);
            tid in q3.ready && Enabled(q3, RemoveFinished(None), wrap) && q' == Step(q3, RemoveFinished(None), wrap)
    ensures tid in q'.vruntime && tid in q'.onRq && tid !in q'.ready
  {
    hide Later, Earlier, Word;
    var q1 := Step(q, Remove(tid, None), wrap);
    assert q1.ready == map[];
    var q2 := Step(q1, Finish(tid), wrap);
    var q3 := Step(q2, Spawn(tid, None, slice), wrap);
    assert Unqueued(q3, tid).ready == map[];
    q' := Step(q3, RemoveFinished(None), wrap);
  }

  // ---------------------------------------------------------------- many entities leaving or arriving

  /** The queue after all of `tids` have left. */
  function Departed(q: RunQueue, tids: set<nat>): RunQueue {
    q.(ready := q.ready - tids, vruntime := q.vruntime - tids, onRq := q.onRq - tids)
  }

  /** The queue after the keys of `keys` have come in, with virtual times `times`. */
  function Arrived(q: RunQueue, times: map<nat, int>, keys: map<nat, int>): RunQueue {
    q.(ready := q.ready + keys, vruntime := q.vruntime + times, onRq := q.onRq + keys.Keys)
  }

  /** The kernel's queue goes from state to state by these actions. */
  ghost predicate KernelRun(qs: seq<RunQueue>, actions: seq<Action>) {
    && |qs| == |actions| + 1
    && forall i :: 0 <= i < |actions| ==> Enabled(qs[i], actions[i], true) && qs[i + 1] == Step(qs[i], actions[i], true)
  }

  lemma KernelRunOneMore(qs: seq<RunQueue>, actions: seq<Action>, a: Action)
    requires KernelRun(qs, actions) && Enabled(qs[|actions|], a, true)
    ensures KernelRun(qs + [Step(qs[|actions|], a, true)], actions + [a])
  {
    hide Step, Enabled;
  }

  lemma {:induction false} DepartOneByOne(q: RunQueue, tids: set<nat>) returns (qs: seq<RunQueue>, actions: seq<Action>)
    requires tids <= q.ready.Keys && (q.current.Some? ==> q.current.value.tid !in tids)
    ensures KernelRun(qs, actions) && qs[0] == q && qs[|actions|] == Departed(q, tids)
    ensures forall i :: 0 <= i < |actions| ==> actions[i].Depart? && actions[i].tid in tids
    decreases tids
  {
    if tids == {} {
      qs, actions := [q], [];
      assert Departed(q, {}) == q;
    } else {
      var tid :| tid in tids;
      var rest := tids - {tid};
      qs, actions := DepartOneByOne(q, rest);
      var last := qs[|actions|];
      KernelRunOneMore(qs, actions, Depart(tid));
      qs, actions := qs + [Step(last, Depart(tid), true)], actions + [Depart(tid)];
      assert rest + {tid} == tids;
      assert Departed(q, tids) == Step(last, Depart(tid), true);
    }
  }

  lemma {:induction false} ArriveOneByOne(q: RunQueue, times: map<nat, int>, keys: map<nat, int>)
    returns (qs: seq<RunQueue>, actions: seq<Action>)
    requires times.Keys == keys.Keys
    requires forall t :: t in keys ==> 0 <= times[t] < TWO_64 && 0 <= keys[t] < TWO_64
    ensures KernelRun(qs, actions) && qs[0] == q && qs[|actions|] == Arrived(q, times, keys)
    ensures forall i :: 0 <= i < |actions| ==>
              && actions[i].Arrive? && actions[i].tid in keys
              && actions[i] == Arrive(actions[i].tid, times[actions[i].tid], keys[actions[i].tid])
    decreases keys.Keys
  {
    if keys == map[] {
      qs, actions := [q], [];
      assert Arrived(q, times, keys) == q;
    } else {
      var tid :| tid in keys;
      assert keys.Keys - {tid} < keys.Keys;
      qs, actions := ArriveOneByOne(q, times - {tid}, keys - {tid});
      var last, a := qs[|actions|], Arrive(tid, times[tid], keys[tid]);
      KernelRunOneMore(qs, actions, a);
      qs, actions := qs + [Step(last, a, true)], actions + [a];
      ArrivedOneMore(q, times, keys, tid);
    }
  }

  lemma ArrivedOneMore(q: RunQueue, times: map<nat, int>, keys: map<nat, int>, tid: nat)
    requires times.Keys == keys.Keys && tid in keys && 0 <= times[tid] < TWO_64 && 0 <= keys[tid] < TWO_64
    ensures Arrived(q, times, keys) == Step(Arrived(q, times - {tid}, keys - {tid}), Arrive(tid, times[tid], keys[tid]), true)
  {
    LastPutIn(q.ready, keys, tid);
    LastPutIn(q.vruntime, times, tid);
    assert q.onRq + keys.Keys == q.onRq + (keys - {tid}).Keys + {tid};
  }

  lemma LastPutIn(m: map<nat, int>, more: map<nat, int>, tid: nat)
    requires tid in more
    ensures m + more == (m + (more - {tid}))[tid := more[tid]]
  {
  }
}
