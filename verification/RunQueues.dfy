/** The run queue of a CPU, updated in place, and stealing from another CPU's queue. */
module RunQueues {
  import opened Machine
  import FS = FairShare
  import PR = Preemption
  import VT = VirtualTime

  /** The scheduling entities: virtual time, `on_rq` flag and run queue of every task. */
  class TaskTable {
    var vruntime: map<nat, int>
    var onRq: set<nat>
    var queue: map<nat, nat>

    constructor ()
      ensures vruntime == map[] && onRq == {} && queue == map[]
    {
      vruntime, onRq, queue := map[], {}, map[];
    }
  }

  predicate IsWord(v: int) {
    0 <= v < TWO_64
  }

  ghost predicate AllWords(m: map<nat, int>) {
    forall t :: t in m ==> IsWord(m[t])
  }

  /** The part of `m` about the entities bound to queue `id`. */
  function Bound(m: map<nat, int>, queue: map<nat, nat>, id: nat): map<nat, int> {
    map t | t in m && t in queue && queue[t] == id :: m[t]
  }

  function BoundSet(ts: set<nat>, queue: map<nat, nat>, id: nat): set<nat> {
    set t | t in ts && t in queue && queue[t] == id
  }

  lemma BoundUpdate(m: map<nat, int>, queue: map<nat, nat>, id: nat, tid: nat, v: int)
    requires tid in queue && queue[tid] == id
    ensures Bound(m[tid := v], queue, id) == Bound(m, queue, id)[tid := v]
  {
  }

  lemma BoundSetUpdate(ts: set<nat>, queue: map<nat, nat>, id: nat, tid: nat)
    requires tid in queue && queue[tid] == id
    ensures BoundSet(ts + {tid}, queue, id) == BoundSet(ts, queue, id) + {tid}
    ensures BoundSet(ts - {tid}, queue, id) == BoundSet(ts, queue, id) - {tid}
  {
  }

  predicate IsBound(vruntime: map<nat, int>, queue: map<nat, nat>, id: nat, tid: nat) {
    tid in vruntime && tid in queue && queue[tid] == id
  }

  /** The current entity is bound here or has completed. */
  predicate CurrentOk(current: Option<VT.Current>, vruntime: map<nat, int>, queue: map<nat, nat>, id: nat) {
    match current
    case None => true
    case Some(c) => if c.finished.None? then IsBound(vruntime, queue, id, c.tid) else IsWord(c.finished.value)
  }

  /** Queued entities are bound here and flagged; all entities are bound somewhere; all times are words. */
  ghost predicate QueueOk(ready: map<nat, int>, current: Option<VT.Current>, min: int,
                          vruntime: map<nat, int>, onRq: set<nat>, queue: map<nat, nat>, id: nat)
  {
    && (forall t :: t in ready ==> IsBound(vruntime, queue, id, t) && t in onRq)
    && CurrentOk(current, vruntime, queue, id)
    && vruntime.Keys == queue.Keys && onRq <= vruntime.Keys
    && AllWords(vruntime) && AllWords(ready) && IsWord(min)
  }

  lemma NewcomerOk(ready: map<nat, int>, current: Option<VT.Current>, min: int,
                   vruntime: map<nat, int>, onRq: set<nat>, queue: map<nat, nat>, id: nat, tid: nat, v: int)
    requires QueueOk(ready, current, min, vruntime, onRq, queue, id) && tid !in vruntime && IsWord(v)
    ensures QueueOk(ready[tid := v], current, min, vruntime[tid := v], onRq + {tid}, queue[tid := id], id)
  {
  }

  lemma CurrentBound(ready: map<nat, int>, current: Option<VT.Current>, min: int,
                     vruntime: map<nat, int>, onRq: set<nat>, queue: map<nat, nat>, id: nat)
    requires QueueOk(ready, current, min, vruntime, onRq, queue, id)
    ensures CurrentOk(current, vruntime, queue, id)
  {
  }

  /** Aging the current entity keeps the queue in order. */
  lemma AgedOk(ready: map<nat, int>, current: Option<VT.Current>, min: int,
               vruntime: map<nat, int>, onRq: set<nat>, queue: map<nat, nat>, id: nat, advance: nat)
    requires QueueOk(ready, current, min, vruntime, onRq, queue, id) && current.Some?
    ensures var tid := current.value.tid;
            if current.value.finished.None? then
              tid in vruntime &&
              var v := Usize(vruntime[tid] + advance);
              QueueOk(if tid in ready then ready[tid := v] else ready, current, min, vruntime[tid := v], onRq, queue, id)
            else
              var v := Usize(current.value.finished.value + advance);
              QueueOk(if tid in ready then ready[tid := v] else ready, Some(VT.Current(tid, Some(v))), min,
                      vruntime, onRq, queue, id)
  {
  }

  /** The later of two words is a word, and where the parent's time is a word wrapping keeps it. */
  lemma PlacedAtWord(base: int, min: int, slice: nat)
    requires IsWord(base)
    ensures IsWord(VT.Later(base, Usize(min + slice), true)) && Usize(base) == base
  {
    hide VT.Delta;
  }

  class CpuQueue {
    const id: nat
    var ready: map<nat, int>
    var current: Option<VT.Current>
    var minVruntime: int

    constructor (id: nat)
      ensures this.id == id && ready == map[] && current == None && minVruntime == 0
    {
      this.id := id;
      ready, current, minVruntime := map[], None, 0;
    }

    /** This queue and the entities bound to it. */
    ghost function State(tasks: TaskTable): VT.RunQueue
      reads this, tasks
    {
      VT.RunQueue(ready, current, minVruntime, Bound(tasks.vruntime, tasks.queue, id), BoundSet(tasks.onRq, tasks.queue, id))
    }

    predicate Owns(tasks: TaskTable, tid: nat)
      reads this, tasks
    {
      IsBound(tasks.vruntime, tasks.queue, id, tid)
    }

    ghost predicate Valid(tasks: TaskTable)
      reads this, tasks
    {
      QueueOk(ready, current, minVruntime, tasks.vruntime, tasks.onRq, tasks.queue, id)
    }

    /** `update_min_vruntime`; `next` is what the priority queue has on top. */
    method UpdateMinVruntime(tasks: TaskTable, next: Option<nat>)
      requires Valid(tasks) && (next.Some? ==> next.value in ready)
      modifies this`minVruntime
      ensures Valid(tasks) && State(tasks) == VT.UpdateMin(old(State(tasks)), next, true)
    {
      hide VT.Delta;
      var v := minVruntime;
      if current.Some? && current.value.finished.None? {
        if current.value.tid in tasks.onRq {
          v := tasks.vruntime[current.value.tid];
        }
      }
      if next.Some? {
        if current.None? {
          v := ready[next.value];
        } else {
          v := VT.Earlier(v, ready[next.value], true);
        }
      }
      minVruntime := VT.Later(minVruntime, v, true);
    }

    /** What `schedule_fn` does under the task and queue locks. */
    method Wake(tasks: TaskTable, tid: nat)
      requires Valid(tasks) && Owns(tasks, tid)
      modifies this`ready, tasks`vruntime, tasks`onRq
      ensures Valid(tasks) && State(tasks) == VT.Step(old(State(tasks)), VT.Wake(tid), true)
      ensures ChangesOnly(old(tasks.vruntime), old(tasks.onRq), tasks.vruntime, tasks.onRq, tid)
    {
      hide VT.Delta, Bound, BoundSet;
      OwnsIsBound(tasks.vruntime, tasks.queue, id, tid);
      ghost var before := tasks.vruntime;
      BoundSetUpdate(tasks.onRq, tasks.queue, id, tid);
      tasks.onRq := tasks.onRq + {tid};
      var v := Usize(minVruntime - VT.WAKE_THRESHOLD);
      tasks.vruntime := tasks.vruntime[tid := VT.Later(tasks.vruntime[tid], v, true)];
      BoundUpdate(before, tasks.queue, id, tid, tasks.vruntime[tid]);
      ready := ready[tid := v];
    }

    /**
     `spawn`: the new task starts no earlier than one slice after the minimum. Its tid is any that is
     vacant, also that of a completed task which this queue still holds as its current one.
     */
    method Spawn(tasks: TaskTable, tid: nat, parent: Option<nat>, slice: nat)
      requires Valid(tasks) && tid !in tasks.vruntime
      requires parent.Some? ==> parent.value in tasks.vruntime
      modifies this`ready, tasks
      ensures Valid(tasks) && tasks.queue == old(tasks.queue)[tid := id]
      ensures var time := if parent.None? then None else Some(old(tasks.vruntime)[parent.value]);
              State(tasks) == VT.Step(old(State(tasks)), VT.Spawn(tid, time, slice), true)
      ensures ChangesOnly(old(tasks.vruntime), old(tasks.onRq), tasks.vruntime, tasks.onRq, tid)
    {
      hide VT.Later, Bound, BoundSet, Usize, AllWords;
      var v := if parent.None? then minVruntime else tasks.vruntime[parent.value];
      WordAt(tasks.vruntime, minVruntime, parent);
      PlacedAtWord(v, minVruntime, slice);
      v := VT.Later(v, Usize(minVruntime + slice), true);
      ghost var before, flags, queues := tasks.vruntime, tasks.onRq, tasks.queue;
      tasks.vruntime := tasks.vruntime[tid := v];
      tasks.queue := tasks.queue[tid := id];
      ready := ready[tid := v];
      tasks.onRq := tasks.onRq + {tid};
      BoundNew(before, flags, queues, id, tid, v);
      BoundIsKnown(before, queues, id);
      NewcomerOk(old(ready), current, minVruntime, before, flags, queues, id, tid, v);
    }

    /**
     The choice in `pop_task_to_run`. `next` is what the priority queue has on top, `other` what it has
     there without the current task; a current task that is flagged has to be queued.
     */
    method ChooseNext(tasks: TaskTable, contested: bool, ran: nat, ideal: nat, next: nat, other: nat) returns (tid: nat)
      requires Valid(tasks) && VT.Peeks(State(tasks), Some(next), true)
      requires contested && current.Some? ==> VT.Peeks(VT.Unqueued(State(tasks), current.value.tid), Some(other), true)
      requires VT.RunsOn(State(tasks)) && current.value.tid in tasks.onRq ==> current.value.tid in ready
      ensures PR.Chooses(State(tasks), contested, ran, ideal, next, tid, true)
    {
      hide VT.Delta, VT.Peeks, Isize;
      tid := next;
      TopIsQueued(State(tasks), Some(next));
      if contested && current.Some? {
        var c := current.value;
        var preempt := c.finished.Some? || c.tid !in tasks.onRq || ran > ideal;
        if !preempt && ran >= FS.SCHED_MIN_GRANULARITY {
          preempt := VT.Delta(tasks.vruntime[c.tid], ready[next], true) > Isize(ideal);
        }
        tid := if preempt then other else c.tid;
      }
    }

    /** The end of `pop_task_to_run`, once the next task is chosen. */
    method PopTask(tasks: TaskTable, tid: nat)
      requires Valid(tasks) && tid in ready
      modifies this`ready, this`current
      ensures Valid(tasks) && State(tasks) == VT.Step(old(State(tasks)), VT.Pop(tid), true)
    {
      ready := ready - {tid};
      current := Some(VT.Current(tid, None));
    }

    /** The first half of `task_tick`: the task ages, and its key, or that of a namesake, with it. */
    method Age(tasks: TaskTable, advance: nat)
      requires Valid(tasks) && current.Some?
      modifies this`ready, this`current, tasks`vruntime
      ensures Valid(tasks) && State(tasks) == VT.Ticked(old(State(tasks)), advance, true)
      ensures if old(current.value.finished.None?)
              then ChangesOnly(old(tasks.vruntime), tasks.onRq, tasks.vruntime, tasks.onRq, old(current.value.tid))
              else tasks.vruntime == old(tasks.vruntime)
    {
      hide Bound, BoundSet, QueueOk, Usize;
      var tid := current.value.tid;
      var v;
      CurrentBound(ready, current, minVruntime, tasks.vruntime, tasks.onRq, tasks.queue, id);
      AgedOk(ready, current, minVruntime, tasks.vruntime, tasks.onRq, tasks.queue, id, advance);
      if current.value.finished.None? {
        OwnsIsBound(tasks.vruntime, tasks.queue, id, tid);
        v := Usize(tasks.vruntime[tid] + advance);
        BoundUpdate(tasks.vruntime, tasks.queue, id, tid, v);
        tasks.vruntime := tasks.vruntime[tid := v];
      } else {
        v := Usize(current.value.finished.value + advance);
        current := Some(VT.Current(tid, Some(v)));
      }
      if tid in ready {
        ready := ready[tid := v];
      }
    }

    /** `task_tick` of the task that ran, which may have completed. */
    method TaskTick(tasks: TaskTable, advance: nat, next: Option<nat>)
      requires Valid(tasks) && VT.Enabled(State(tasks), VT.Tick(advance, next), true)
      modifies this`ready, this`current, this`minVruntime, tasks`vruntime
      ensures Valid(tasks) && State(tasks) == VT.Step(old(State(tasks)), VT.Tick(advance, next), true)
      ensures if old(current.value.finished.None?)
              then ChangesOnly(old(tasks.vruntime), tasks.onRq, tasks.vruntime, tasks.onRq, old(current.value.tid))
              else tasks.vruntime == old(tasks.vruntime)
    {
      hide VT.Peeks, VT.UpdateMin, VT.Ticked, QueueOk, Bound, BoundSet, ChangesOnly;
      Age(tasks, advance);
      TopIsQueued(VT.Ticked(old(State(tasks)), advance, true), next);
      UpdateMinVruntime(tasks, next);
    }

    /** `remove_task`: the minimum is brought up to date only if the task was here. */
    method RemoveTask(tasks: TaskTable, tid: nat, next: Option<nat>)
      requires Valid(tasks) && Owns(tasks, tid) && VT.Enabled(State(tasks), VT.Remove(tid, next), true)
      modifies this`ready, this`minVruntime, tasks`onRq
      ensures Valid(tasks) && State(tasks) == VT.Step(old(State(tasks)), VT.Remove(tid, next), true)
      ensures ChangesOnly(tasks.vruntime, old(tasks.onRq), tasks.vruntime, tasks.onRq, tid)
    {
      hide VT.Delta, VT.Peeks, VT.UpdateMin;
      BoundSetUpdate(tasks.onRq, tasks.queue, id, tid);
      tasks.onRq := tasks.onRq - {tid};
      var contained := tid in ready || (current.Some? && current.value.tid == tid);
      ready := ready - {tid};
      TopIsQueued(VT.Dropped(old(State(tasks)), tid), next);
      if contained {
        UpdateMinVruntime(tasks, next);
      }
    }

    /** `remove_task` of a current task that has completed: it goes by the tid, whoever has that now. */
    method RemoveFinished(tasks: TaskTable, next: Option<nat>)
      requires Valid(tasks) && VT.Enabled(State(tasks), VT.RemoveFinished(next), true)
      modifies this`ready, this`minVruntime
      ensures Valid(tasks) && State(tasks) == VT.Step(old(State(tasks)), VT.RemoveFinished(next), true)
    {
      hide VT.Delta, VT.Peeks, VT.UpdateMin;
      ready := ready - {current.value.tid};
      TopIsQueued(VT.Unqueued(old(State(tasks)), current.value.tid), next);
      UpdateMinVruntime(tasks, next);
    }

    /** The task's slot is freed; the queue may still hold the task as its current one. */
    method Finish(tasks: TaskTable, tid: nat)
      requires Valid(tasks) && Owns(tasks, tid) && tid !in ready
      modifies this`current, tasks
      ensures Valid(tasks) && State(tasks) == VT.Step(old(State(tasks)), VT.Finish(tid), true)
      ensures tasks.vruntime == old(tasks.vruntime) - {tid} && tasks.onRq == old(tasks.onRq) - {tid}
      ensures tasks.queue == old(tasks.queue) - {tid}
    {
      hide Bound, BoundSet;
      OwnsIsBound(tasks.vruntime, tasks.queue, id, tid);
      BoundGone(tasks.vruntime, tasks.onRq, tasks.queue, id, tid);
      if current.Some? && current.value == VT.Current(tid, None) {
        current := Some(VT.Current(tid, Some(tasks.vruntime[tid])));
      }
      tasks.vruntime := tasks.vruntime - {tid};
      tasks.onRq := tasks.onRq - {tid};
      tasks.queue := tasks.queue - {tid};
    }

    /** What is done when the future of a task is dropped. */
    method Complete(tasks: TaskTable, tid: nat, next: Option<nat>)
      requires Valid(tasks) && Owns(tasks, tid) && VT.Enabled(State(tasks), VT.Remove(tid, next), true)
      modifies this`ready, this`minVruntime, this`current, tasks
      ensures var q := VT.Step(old(State(tasks)), VT.Remove(tid, next), true);
              Valid(tasks) && VT.Enabled(q, VT.Finish(tid), true) && State(tasks) == VT.Step(q, VT.Finish(tid), true)
      ensures tasks.vruntime == old(tasks.vruntime) - {tid} && tasks.onRq == old(tasks.onRq) - {tid}
      ensures tasks.queue == old(tasks.queue) - {tid}
    {
      hide VT.Peeks, VT.UpdateMin, QueueOk, Bound, BoundSet, ChangesOnly;
      OwnsIsBound(tasks.vruntime, tasks.queue, id, tid);
      TopIsQueued(VT.Dropped(State(tasks), tid), next);
      NoLongerQueued(State(tasks), tid, next);
      RemoveTask(tasks, tid, next);
      RemovedOnly(old(tasks.onRq), tasks.onRq, tid, tasks.vruntime);
      Finish(tasks, tid);
    }
  }

  lemma NoLongerQueued(q: VT.RunQueue, tid: nat, next: Option<nat>)
    requires VT.Enabled(q, VT.Remove(tid, next), true)
    ensures tid !in VT.Step(q, VT.Remove(tid, next), true).ready
  {
  }

  lemma RemovedOnly(onRq: set<nat>, onRq': set<nat>, tid: nat, vruntime: map<nat, int>)
    requires ChangesOnly(vruntime, onRq, vruntime, onRq', tid)
    ensures onRq' - {tid} == onRq - {tid}
  {
  }

  /** Only the entity `tid` is different. */
  ghost predicate ChangesOnly(vruntime: map<nat, int>, onRq: set<nat>, vruntime': map<nat, int>, onRq': set<nat>, tid: nat) {
    && vruntime'.Keys == vruntime.Keys + {tid} && vruntime' == vruntime[tid := vruntime'[tid]]
    && (onRq' == onRq || onRq' == onRq + {tid} || onRq' == onRq - {tid})
  }

  /** All entities but `tid` are the same: so it is after any step of the queue of `tid`. */
  ghost predicate SameBut(vruntime: map<nat, int>, onRq: set<nat>, queue: map<nat, nat>,
                          vruntime': map<nat, int>, onRq': set<nat>, queue': map<nat, nat>, tid: nat)
  {
    vruntime' - {tid} == vruntime - {tid} && onRq' - {tid} == onRq - {tid} && queue' - {tid} == queue - {tid}
  }

  /** So a step of one queue, be it a spawn or a completion, leaves the state of every other queue alone. */
  lemma OthersUnaffected(q: VT.RunQueue, id: nat, tid: nat,
                         vruntime: map<nat, int>, onRq: set<nat>, queue: map<nat, nat>,
                         vruntime': map<nat, int>, onRq': set<nat>, queue': map<nat, nat>)
    requires QueueOk(q.ready, q.current, q.min, vruntime, onRq, queue, id)
    requires SameBut(vruntime, onRq, queue, vruntime', onRq', queue', tid)
    requires (tid in queue ==> queue[tid] != id) && (tid in queue' ==> queue'[tid] != id)
    requires AllWords(vruntime') && vruntime'.Keys == queue'.Keys && onRq' <= vruntime'.Keys
    ensures Bound(vruntime', queue', id) == Bound(vruntime, queue, id)
    ensures BoundSet(onRq', queue', id) == BoundSet(onRq, queue, id)
    ensures QueueOk(q.ready, q.current, q.min, vruntime', onRq', queue', id)
  {
    forall t | t != tid
      ensures t in vruntime' <==> t in vruntime
      ensures t in vruntime ==> vruntime'[t] == vruntime[t]
      ensures t in queue' <==> t in queue
      ensures t in queue ==> queue'[t] == queue[t]
      ensures t in onRq' <==> t in onRq
    {
      assert t in vruntime' <==> t in vruntime' - {tid};
      assert t in vruntime <==> t in vruntime - {tid};
      assert t in queue' <==> t in queue' - {tid};
      assert t in queue <==> t in queue - {tid};
      assert t in onRq' <==> t in onRq' - {tid};
      assert t in onRq <==> t in onRq - {tid};
      assert t in vruntime ==> (vruntime' - {tid})[t] == (vruntime - {tid})[t];
      assert t in queue ==> (queue' - {tid})[t] == (queue - {tid})[t];
    }
  }

  /** What the queue's methods say of the other entities. */
  lemma StepsChangeOne(vruntime: map<nat, int>, onRq: set<nat>, queue: map<nat, nat>,
                       vruntime': map<nat, int>, onRq': set<nat>, queue': map<nat, nat>, tid: nat)
    requires
      || (&& ChangesOnly(vruntime, onRq, vruntime', onRq', tid)
          && (queue' == queue || (tid in queue' && queue' == queue[tid := queue'[tid]])))
      || (vruntime' == vruntime - {tid} && onRq' == onRq - {tid} && queue' == queue - {tid})
    ensures SameBut(vruntime, onRq, queue, vruntime', onRq', queue', tid)
  {
  }

  lemma BoundGone(m: map<nat, int>, ts: set<nat>, queue: map<nat, nat>, id: nat, tid: nat)
    ensures Bound(m - {tid}, queue - {tid}, id) == Bound(m, queue, id) - {tid}
    ensures BoundSet(ts - {tid}, queue - {tid}, id) == BoundSet(ts, queue, id) - {tid}
  {
  }

  lemma OwnsIsBound(m: map<nat, int>, queue: map<nat, nat>, id: nat, tid: nat)
    requires tid in m && tid in queue && queue[tid] == id
    ensures tid in Bound(m, queue, id) && Bound(m, queue, id)[tid] == m[tid]
  {
  }

  lemma BoundNew(m: map<nat, int>, ts: set<nat>, queue: map<nat, nat>, id: nat, tid: nat, v: int)
    requires tid !in m && tid !in queue && tid !in ts
    ensures Bound(m[tid := v], queue[tid := id], id) == Bound(m, queue, id)[tid := v]
    ensures BoundSet(ts + {tid}, queue[tid := id], id) == BoundSet(ts, queue, id) + {tid}
  {
  }

  lemma WordAt(vruntime: map<nat, int>, min: int, parent: Option<nat>)
    requires AllWords(vruntime) && IsWord(min) && (parent.Some? ==> parent.value in vruntime)
    ensures IsWord(if parent.None? then min else vruntime[parent.value])
  {
  }

  lemma BoundIsKnown(m: map<nat, int>, queue: map<nat, nat>, id: nat)
    ensures Bound(m, queue, id).Keys <= m.Keys
  {
  }

  lemma TopIsQueued(q: VT.RunQueue, next: Option<nat>)
    requires VT.Peeks(q, next, true)
    ensures next.Some? ==> next.value in q.ready
  {
  }

  // ---------------------------------------------------------------- stealing

  /** The entries of `m` whose task is in `tids`. */
  function Restrict(m: map<nat, int>, tids: set<nat>): map<nat, int> {
    map t | t in m && t in tids :: m[t]
  }

  /** Virtual time re-based from one queue's minimum to another's. */
  function Rebased(v: int, from: int, to: int): int {
    Usize(Usize(v - from) + to)
  }

  /** Re-basing keeps the lag behind the minimum. */
  lemma RebasedKeepsLag(v: int, from: int, to: int)
    ensures Usize(Rebased(v, from, to) - to) == Usize(v - from)
  {
  }

  /** The state of a steal that has moved `moved` and put `kept` aside. */
  ghost predicate Stealing(thief: map<nat, int>, victim: map<nat, int>, moved: set<nat>, kept: map<nat, int>,
                           thief': map<nat, int>, victim': map<nat, int>)
  {
    && moved <= victim.Keys && kept.Keys <= victim.Keys && moved !! kept.Keys
    && (forall t :: t in kept ==> kept[t] == victim[t])
    && thief' == thief + Restrict(victim, moved)
    && victim' == victim - (moved + kept.Keys)
  }

  lemma StealingMove(thief: map<nat, int>, victim: map<nat, int>, moved: set<nat>, kept: map<nat, int>,
                     thief': map<nat, int>, victim': map<nat, int>, tid: nat)
    requires Stealing(thief, victim, moved, kept, thief', victim') && tid in victim'
    ensures Stealing(thief, victim, moved + {tid}, kept, thief'[tid := victim'[tid]], victim' - {tid})
  {
    assert Restrict(victim, moved + {tid}) == Restrict(victim, moved)[tid := victim[tid]];
  }

  lemma StealingKeep(thief: map<nat, int>, victim: map<nat, int>, moved: set<nat>, kept: map<nat, int>,
                     thief': map<nat, int>, victim': map<nat, int>, tid: nat)
    requires Stealing(thief, victim, moved, kept, thief', victim') && tid in victim'
    ensures Stealing(thief, victim, moved, kept[tid := victim'[tid]], thief', victim' - {tid})
  {
  }

  /** The vruntimes and queues of the moved tasks change, those of no other task. */
  ghost predicate TasksMoved(moved: set<nat>, vruntime: map<nat, int>, queue: map<nat, nat>,
                             vruntime': map<nat, int>, queue': map<nat, nat>, from: int, to: int, thief: nat)
  {
    && vruntime'.Keys == vruntime.Keys && queue'.Keys == queue.Keys
    && (forall t :: t in vruntime ==> vruntime'[t] == if t in moved then Rebased(vruntime[t], from, to) else vruntime[t])
    && (forall t :: t in queue ==> queue'[t] == if t in moved then thief else queue[t])
  }

  function TidOf(current: Option<VT.Current>): Option<nat> {
    if current.Some? then Some(current.value.tid) else None
  }

  /** Only tasks that are neither locked nor called like the current one move. */
  predicate Movable(moved: set<nat>, busy: set<nat>, current: Option<nat>) {
    moved !! busy && (current.Some? ==> current.value !in moved)
  }

  lemma MovableStep(moved: set<nat>, busy: set<nat>, current: Option<nat>, tid: nat)
    requires Movable(moved, busy, current) && current != Some(tid) && tid !in busy
    ensures Movable(moved + {tid}, busy, current)
  {
  }

  // What the priority queue pops: an entry that no other precedes, as far as the order makes sense.

  predicate IsTop(ready: map<nat, int>, tid: nat) {
    tid in ready && forall t :: t in ready ==> VT.Delta(ready[tid], ready[t], true) <= 0
  }

  /** The keys are in order: no three of them go round in a circle. */
  predicate InOrder(ready: map<nat, int>) {
    forall a, b, c :: a in ready && b in ready && c in ready ==> NoCircle(ready[a], ready[b], ready[c])
  }

  predicate NoCircle(x: int, y: int, z: int) {
    VT.Delta(x, y, true) <= 0 && VT.Delta(y, z, true) <= 0 ==> VT.Delta(x, z, true) <= 0
  }

  /** Words of virtual times that span less than 2^63 are in order. */
  lemma NarrowIsInOrder(ready: map<nat, int>)
    requires forall x, y :: x in ready.Values && y in ready.Values ==> VT.Near(x, y)
    ensures InOrder(VT.WrapMap(ready))
  {
    hide VT.Delta, Usize, VT.Near;
    forall a, b, c | a in ready && b in ready && c in ready
      ensures NoCircle(Usize(ready[a]), Usize(ready[b]), Usize(ready[c]))
    {
      assert ready[a] in ready.Values && ready[b] in ready.Values && ready[c] in ready.Values;
      NearNoCircle(ready[a], ready[b], ready[c]);
    }
  }

  lemma NearNoCircle(x: int, y: int, z: int)
    requires VT.Near(x, y) && VT.Near(y, z) && VT.Near(x, z)
    ensures NoCircle(Usize(x), Usize(y), Usize(z))
  {
    hide Usize, Isize;
    VT.DeltaNear(x, y);
    VT.DeltaNear(y, z);
    VT.DeltaNear(x, z);
  }

  lemma {:induction false} TopExists(ready: map<nat, int>) returns (tid: nat)
    requires InOrder(ready) && ready != map[]
    ensures IsTop(ready, tid)
    decreases ready.Keys
  {
    hide InOrder, IsTop;
    var t: nat :| t in ready;
    var rest := ready - {t};
    assert t in ready.Keys && t !in rest.Keys && rest.Keys <= ready.Keys;
    if rest == map[] {
      tid := t;
      OnlyOne(ready, t);
    } else {
      InOrderPart(ready, rest);
      var top := TopExists(rest);
      tid := TopOfTwo(ready, t, top);
    }
  }

  lemma OnlyOne(ready: map<nat, int>, t: nat)
    requires t in ready && ready - {t} == map[]
    ensures IsTop(ready, t)
  {
    hide VT.Delta;
    OneOfTwo(ready[t], ready[t]);
    assert forall k :: k in ready && k != t ==> k in ready - {t};
  }

  /** The top of the others or `t` itself is the top of all. */
  lemma TopOfTwo(ready: map<nat, int>, t: nat, top: nat) returns (tid: nat)
    requires InOrder(ready) && t in ready && IsTop(ready - {t}, top)
    ensures IsTop(ready, tid)
  {
    hide VT.Delta, InOrder, NoCircle;
    var rest := ready - {t};
    OneOfTwo(ready[t], ready[top]);
    OneOfTwo(ready[t], ready[t]);
    tid := if VT.Delta(ready[top], ready[t], true) > 0 then t else top;
    forall k | k in ready ensures VT.Delta(ready[tid], ready[k], true) <= 0 {
      assert k != t ==> k in rest && rest[k] == ready[k];
      Transitive(ready, t, top, k);
    }
  }

  lemma Transitive(ready: map<nat, int>, a: nat, b: nat, c: nat)
    requires InOrder(ready) && a in ready && b in ready && c in ready
    ensures VT.Delta(ready[a], ready[b], true) <= 0 && VT.Delta(ready[b], ready[c], true) <= 0 ==>
              VT.Delta(ready[a], ready[c], true) <= 0
  {
    hide VT.Delta;
    assert NoCircle(ready[a], ready[b], ready[c]);
  }

  lemma OneOfTwo(x: int, y: int)
    ensures VT.Delta(x, y, true) <= 0 || VT.Delta(y, x, true) <= 0
  {
  }

  lemma InOrderPart(ready: map<nat, int>, part: map<nat, int>)
    requires InOrder(ready) && part.Keys <= ready.Keys && forall t :: t in part ==> part[t] == ready[t]
    ensures InOrder(part)
  {
    hide NoCircle;
  }

  /** Half of the entries, and none of them after one that is left. */
  ghost predicate TopHalf(ready: map<nat, int>, taken: set<nat>) {
    |taken| == |ready| / 2 && FromTop(ready, taken)
  }

  ghost predicate FromTop(ready: map<nat, int>, taken: set<nat>) {
    && taken <= ready.Keys
    && (InOrder(ready) ==> forall x, y :: x in taken && y in ready && y !in taken ==> VT.Delta(ready[x], ready[y], true) <= 0)
  }

  lemma FromTopNext(ready: map<nat, int>, taken: set<nat>, left: map<nat, int>, tid: nat)
    requires FromTop(ready, taken) && left == ready - taken && tid in left && (InOrder(ready) ==> IsTop(left, tid))
    ensures FromTop(ready, taken + {tid})
  {
    hide VT.Delta, InOrder;
    if InOrder(ready) {
      forall x, y | x in taken + {tid} && y in ready && y !in taken + {tid} ensures VT.Delta(ready[x], ready[y], true) <= 0 {
        assert y in left && left[y] == ready[y] && left[tid] == ready[tid];
      }
    }
  }

  /** Of the entries taken, those that are neither locked nor called like the current task. */
  function Unhindered(taken: set<nat>, busy: set<nat>, current: Option<nat>): set<nat> {
    set t | t in taken && t !in busy && current != Some(t)
  }

  /** What has been taken off the top so far: `moved`, and `kept` which was in the way. */
  ghost predicate Chosen(ready: map<nat, int>, moved: set<nat>, kept: set<nat>, busy: set<nat>, current: Option<nat>) {
    FromTop(ready, moved + kept) && forall t :: t in kept ==> t in busy || current == Some(t)
  }

  lemma ChosenNext(ready: map<nat, int>, moved: set<nat>, kept: set<nat>, busy: set<nat>, current: Option<nat>,
                   left: map<nat, int>, tid: nat)
    requires Chosen(ready, moved, kept, busy, current) && left == ready - (moved + kept) && tid in left
    requires InOrder(left) ==> IsTop(left, tid)
    ensures if current == Some(tid) || tid in busy then Chosen(ready, moved, kept + {tid}, busy, current)
            else Chosen(ready, moved + {tid}, kept, busy, current)
  {
    hide InOrder, IsTop, FromTop;
    if InOrder(ready) {
      InOrderPart(ready, left);
    }
    FromTopNext(ready, moved + kept, left, tid);
    assert moved + kept + {tid} == moved + {tid} + kept == moved + (kept + {tid});
  }

  lemma ChosenDone(ready: map<nat, int>, moved: set<nat>, kept: set<nat>, busy: set<nat>, current: Option<nat>)
    requires Chosen(ready, moved, kept, busy, current) && Movable(moved, busy, current) && moved !! kept
    ensures FromTop(ready, moved + kept) && moved == Unhindered(moved + kept, busy, current)
    ensures |moved + kept| == |moved| + |kept|
  {
    hide FromTop;
  }

  lemma SetSizes(a: set<nat>, b: set<nat>, c: set<nat>)
    requires a <= c && b <= c && a !! b
    ensures |c - (a + b)| == |c| - |a| - |b|
  {
    assert c == (c - (a + b)) + (a + b);
  }

  /**
   `try_steal_tasks` once a victim is locked: half of its queued tasks are taken off the top; the
   running task and tasks whose lock is held (`busy`) go back, all others move. No task is lost or
   duplicated, every entry keeps its key, and a moved task keeps its lag behind its queue's minimum.
   */
  method StealTasks(thief: CpuQueue, victim: CpuQueue, tasks: TaskTable, busy: set<nat>)
    returns (moved: set<nat>, ghost taken: set<nat>)
    requires thief.id != victim.id && thief.Valid(tasks) && victim.Valid(tasks)
    modifies thief`ready, victim`ready, tasks`vruntime, tasks`queue
    ensures TopHalf(old(victim.ready), taken) && moved == Unhindered(taken, busy, TidOf(victim.current))
    ensures moved <= old(victim.ready).Keys && Movable(moved, busy, TidOf(victim.current))
    ensures 2 * |moved| <= |old(victim.ready)|
    ensures TasksMoved(moved, old(tasks.vruntime), old(tasks.queue), tasks.vruntime, tasks.queue,
                       victim.minVruntime, thief.minVruntime, thief.id)
    ensures victim.Valid(tasks) && victim.State(tasks) == VT.Departed(old(victim.State(tasks)), moved)
    ensures thief.Valid(tasks)
    ensures thief.State(tasks)
         == VT.Arrived(old(thief.State(tasks)), RebasedAll(old(tasks.vruntime), moved, victim.minVruntime, thief.minVruntime),
                       Restrict(old(victim.ready), moved))
  {
    hide TasksMoved, Restrict, Bound, BoundSet, RebasedAll, VT.Departed, VT.Arrived, QueueOk, TopHalf;
    ghost var thief0, victim0, vruntime0, queue0 := thief.ready, victim.ready, tasks.vruntime, tasks.queue;
    ghost var v, t := victim.State(tasks), thief.State(tasks);
    QueuedAreKnown(victim0, victim.current, victim.minVruntime, vruntime0, tasks.onRq, queue0, victim.id);
    moved, taken := MoveHalf(thief, victim, tasks, busy);
    StealMovesStates(v, t, vruntime0, tasks.onRq, queue0, victim.id, thief.id, moved, tasks.vruntime, tasks.queue);
    StealKeepsValid(thief0, victim0, vruntime0, tasks.onRq, queue0, victim.id, thief.id, moved, tasks.vruntime, tasks.queue,
                    victim.current, thief.current, victim.minVruntime, thief.minVruntime);
  }

  /** The loop of `try_steal_tasks`. */
  method MoveHalf(thief: CpuQueue, victim: CpuQueue, tasks: TaskTable, busy: set<nat>)
    returns (moved: set<nat>, ghost taken: set<nat>)
    requires thief != victim && forall t :: t in victim.ready ==> t in tasks.vruntime && t in tasks.queue
    modifies thief`ready, victim`ready, tasks`vruntime, tasks`queue
    ensures TopHalf(old(victim.ready), taken) && moved == Unhindered(taken, busy, TidOf(victim.current))
    ensures moved <= old(victim.ready).Keys && Movable(moved, busy, TidOf(victim.current))
    ensures 2 * |moved| <= |old(victim.ready)|
    ensures victim.ready == old(victim.ready) - moved
    ensures thief.ready == old(thief.ready) + Restrict(old(victim.ready), moved)
    ensures TasksMoved(moved, old(tasks.vruntime), old(tasks.queue), tasks.vruntime, tasks.queue,
                       victim.minVruntime, thief.minVruntime, thief.id)
  {
    hide Stolen, TasksMoved, Restrict, Movable, FromTop, Unhindered, TidOf;
    ghost var start, rules := View(thief, victim, tasks), RulesOf(thief, victim, busy);
    StealStart(start, rules);
    var count: nat := |victim.ready| / 2;
    var pushBack: map<nat, int> := map[];
    moved := {};
    while count != 0
      invariant count + |moved| + |pushBack| == |start.victim| / 2
      invariant Stolen(start, moved, pushBack, View(thief, victim, tasks), rules)
    {
      count := count - 1;
      moved, pushBack := StealOne(thief, victim, tasks, busy, moved, pushBack, start);
    }
    PutBack(start, moved, pushBack, View(thief, victim, tasks), rules);
    taken := moved + pushBack.Keys;
    victim.ready := victim.ready + pushBack;
  }

  /** The new virtual times of the moved tasks. */
  function RebasedAll(vruntime: map<nat, int>, moved: set<nat>, from: int, to: int): map<nat, int> {
    map t | t in vruntime && t in moved :: Rebased(vruntime[t], from, to)
  }

  /** For the two queues a steal is a departure of the moved tasks here and their arrival there. */
  lemma StealMovesStates(v: VT.RunQueue, t: VT.RunQueue, vruntime: map<nat, int>, onRq: set<nat>, queue: map<nat, nat>,
                         victim: nat, thief: nat, moved: set<nat>, vruntime': map<nat, int>, queue': map<nat, nat>)
    requires victim != thief && moved <= v.ready.Keys
    requires QueueOk(v.ready, v.current, v.min, vruntime, onRq, queue, victim)
    requires v.vruntime == Bound(vruntime, queue, victim) && v.onRq == BoundSet(onRq, queue, victim)
    requires t.vruntime == Bound(vruntime, queue, thief) && t.onRq == BoundSet(onRq, queue, thief)
    requires TasksMoved(moved, vruntime, queue, vruntime', queue', v.min, t.min, thief)
    ensures VT.Departed(v, moved)
         == v.(ready := v.ready - moved, vruntime := Bound(vruntime', queue', victim), onRq := BoundSet(onRq, queue', victim))
    ensures VT.Arrived(t, RebasedAll(vruntime, moved, v.min, t.min), Restrict(v.ready, moved))
         == t.(ready := t.ready + Restrict(v.ready, moved), vruntime := Bound(vruntime', queue', thief),
               onRq := BoundSet(onRq, queue', thief))
  {
    hide Rebased, Bound, BoundSet, RebasedAll, TasksMoved;
    LeftBehind(vruntime, onRq, queue, victim, thief, moved, vruntime', queue', v.min, t.min);
    ArrivedTimes(vruntime, queue, victim, thief, moved, vruntime', queue', v.min, t.min);
    assert Restrict(v.ready, moved).Keys == moved;
  }

  lemma LeftBehind(vruntime: map<nat, int>, onRq: set<nat>, queue: map<nat, nat>, victim: nat, thief: nat, moved: set<nat>,
                   vruntime': map<nat, int>, queue': map<nat, nat>, from: int, to: int)
    requires victim != thief && moved <= onRq && forall k :: k in moved ==> k in vruntime && k in queue && queue[k] == victim
    requires TasksMoved(moved, vruntime, queue, vruntime', queue', from, to, thief)
    ensures Bound(vruntime', queue', victim) == Bound(vruntime, queue, victim) - moved
    ensures BoundSet(onRq, queue', victim) == BoundSet(onRq, queue, victim) - moved
    ensures BoundSet(onRq, queue', thief) == BoundSet(onRq, queue, thief) + moved
  {
    hide Rebased;
  }

  lemma ArrivedTimes(vruntime: map<nat, int>, queue: map<nat, nat>, victim: nat, thief: nat, moved: set<nat>,
                     vruntime': map<nat, int>, queue': map<nat, nat>, from: int, to: int)
    requires victim != thief && forall k :: k in moved ==> k in vruntime && k in queue && queue[k] == victim
    requires TasksMoved(moved, vruntime, queue, vruntime', queue', from, to, thief)
    ensures Bound(vruntime', queue', thief) == Bound(vruntime, queue, thief) + RebasedAll(vruntime, moved, from, to)
  {
    hide Rebased;
  }

  lemma QueuedAreKnown(ready: map<nat, int>, current: Option<VT.Current>, min: int,
                       vruntime: map<nat, int>, onRq: set<nat>, queue: map<nat, nat>, id: nat)
    requires QueueOk(ready, current, min, vruntime, onRq, queue, id)
    ensures forall t :: t in ready ==> t in vruntime && t in queue
  {
  }

  lemma StealKeepsValid(thief0: map<nat, int>, victim0: map<nat, int>,
                        vruntime: map<nat, int>, onRq: set<nat>, queue: map<nat, nat>, victim: nat, thief: nat,
                        moved: set<nat>, vruntime': map<nat, int>, queue': map<nat, nat>,
                        currentV: Option<VT.Current>, currentT: Option<VT.Current>, from: int, to: int)
    requires victim != thief && moved <= victim0.Keys && (currentV.Some? ==> currentV.value.tid !in moved)
    requires QueueOk(victim0, currentV, from, vruntime, onRq, queue, victim)
    requires QueueOk(thief0, currentT, to, vruntime, onRq, queue, thief)
    requires TasksMoved(moved, vruntime, queue, vruntime', queue', from, to, thief)
    ensures QueueOk(victim0 - moved, currentV, from, vruntime', onRq, queue', victim)
    ensures QueueOk(thief0 + Restrict(victim0, moved), currentT, to, vruntime', onRq, queue', thief)
  {
  }

  /** What a steal works on: both queues' entries, and the times and queues of all tasks. */
  datatype Both = Both(thief: map<nat, int>, victim: map<nat, int>, vruntime: map<nat, int>, queue: map<nat, nat>)

  /** What it goes by: both minima, the thief, whose lock is held and who is running. */
  datatype Rules = Rules(from: int, to: int, id: nat, busy: set<nat>, current: Option<nat>)

  ghost function View(thief: CpuQueue, victim: CpuQueue, tasks: TaskTable): Both
    reads thief, victim, tasks
  {
    Both(thief.ready, victim.ready, tasks.vruntime, tasks.queue)
  }

  ghost function RulesOf(thief: CpuQueue, victim: CpuQueue, busy: set<nat>): Rules
    reads thief, victim
  {
    Rules(victim.minVruntime, thief.minVruntime, thief.id, busy, TidOf(victim.current))
  }

  /** How far a steal has come that has moved `moved` and put `kept` aside. */
  ghost predicate Stolen(b: Both, moved: set<nat>, kept: map<nat, int>, b': Both, r: Rules) {
    && Stealing(b.thief, b.victim, moved, kept, b'.thief, b'.victim) && Movable(moved, r.busy, r.current)
    && Chosen(b.victim, moved, kept.Keys, r.busy, r.current)
    && TasksMoved(moved, b.vruntime, b.queue, b'.vruntime, b'.queue, r.from, r.to, r.id)
  }

  /** Take one task off the victim's queue: move it, or put it aside. */
  method StealOne(thief: CpuQueue, victim: CpuQueue, tasks: TaskTable, busy: set<nat>,
                  moved: set<nat>, pushBack: map<nat, int>, ghost start: Both)
    returns (moved': set<nat>, pushBack': map<nat, int>)
    requires thief != victim && |moved| + |pushBack| < |start.victim| / 2
    requires forall t :: t in start.victim ==> t in start.vruntime && t in start.queue
    requires Stolen(start, moved, pushBack, View(thief, victim, tasks), RulesOf(thief, victim, busy))
    modifies thief`ready, victim`ready, tasks`vruntime, tasks`queue
    ensures |moved'| + |pushBack'| == |moved| + |pushBack| + 1
    ensures Stolen(start, moved', pushBack', View(thief, victim, tasks), RulesOf(thief, victim, busy))
  {
    hide Stolen, Rebased, InOrder, IsTop;
    SomeLeft(start, moved, pushBack, View(thief, victim, tasks), RulesOf(thief, victim, busy));
    var tid: nat :| tid in victim.ready && (InOrder(victim.ready) ==> IsTop(victim.ready, tid));
    if TidOf(victim.current) == Some(tid) || tid in busy {
      StolenAside(start, moved, pushBack, View(thief, victim, tasks), RulesOf(thief, victim, busy), tid);
      moved', pushBack' := moved, pushBack[tid := victim.ready[tid]];
      victim.ready := victim.ready - {tid};
    } else {
      StolenAway(start, moved, pushBack, View(thief, victim, tasks), RulesOf(thief, victim, busy), tid);
      moved', pushBack' := moved + {tid}, pushBack;
      Migrate(thief, victim, tasks, tid);
    }
  }

  /** The task on top is put aside if it cannot move. */
  lemma StolenAside(b: Both, moved: set<nat>, kept: map<nat, int>, b': Both, r: Rules, tid: nat)
    requires Stolen(b, moved, kept, b', r) && tid in b'.victim && (InOrder(b'.victim) ==> IsTop(b'.victim, tid))
    requires r.current == Some(tid) || tid in r.busy
    ensures |kept[tid := b'.victim[tid]]| == |kept| + 1
    ensures Stolen(b, moved, kept[tid := b'.victim[tid]], b'.(victim := b'.victim - {tid}), r)
  {
    hide Stealing, TasksMoved, Restrict, Movable, Chosen, InOrder, IsTop;
    LeftInQueue(b.thief, b.victim, moved, kept, b'.thief, b'.victim);
    ChosenNext(b.victim, moved, kept.Keys, r.busy, r.current, b'.victim, tid);
    TakenFromVictim(b.thief, b.victim, moved, kept, b'.thief, b'.victim, tid);
    StealingKeep(b.thief, b.victim, moved, kept, b'.thief, b'.victim, tid);
    assert kept[tid := b'.victim[tid]].Keys == kept.Keys + {tid};
  }

  lemma LeftInQueue(thief: map<nat, int>, victim: map<nat, int>, moved: set<nat>, kept: map<nat, int>,
                    thief': map<nat, int>, victim': map<nat, int>)
    requires Stealing(thief, victim, moved, kept, thief', victim')
    ensures victim' == victim - (moved + kept.Keys) && moved !! kept.Keys
  {
  }

  /** It moves if nothing is in its way. */
  lemma StolenAway(b: Both, moved: set<nat>, kept: map<nat, int>, b': Both, r: Rules, tid: nat)
    requires Stolen(b, moved, kept, b', r) && tid in b'.victim && (InOrder(b'.victim) ==> IsTop(b'.victim, tid))
    requires forall t :: t in b.victim ==> t in b.vruntime && t in b.queue
    requires r.current != Some(tid) && tid !in r.busy
    ensures |moved + {tid}| == |moved| + 1 && tid in b'.vruntime
    ensures Stolen(b, moved + {tid}, kept,
                   Both(b'.thief[tid := b'.victim[tid]], b'.victim - {tid},
                        b'.vruntime[tid := Rebased(b'.vruntime[tid], r.from, r.to)], b'.queue[tid := r.id]), r)
  {
    hide Stealing, TasksMoved, Rebased, Restrict, Movable, Chosen, InOrder, IsTop;
    LeftInQueue(b.thief, b.victim, moved, kept, b'.thief, b'.victim);
    ChosenNext(b.victim, moved, kept.Keys, r.busy, r.current, b'.victim, tid);
    TakenFromVictim(b.thief, b.victim, moved, kept, b'.thief, b'.victim, tid);
    StealingMove(b.thief, b.victim, moved, kept, b'.thief, b'.victim, tid);
    MoveTask(moved, b.vruntime, b.queue, b'.vruntime, b'.queue, r.from, r.to, r.id, tid);
    MovableStep(moved, r.busy, r.current, tid);
  }

  /** Move one queue entry as it is and re-base its task's virtual time. */
  method Migrate(thief: CpuQueue, victim: CpuQueue, tasks: TaskTable, tid: nat)
    requires thief != victim && tid in victim.ready && tid in tasks.vruntime
    modifies thief`ready, victim`ready, tasks`vruntime, tasks`queue
    ensures victim.ready == old(victim.ready) - {tid} && thief.ready == old(thief.ready)[tid := old(victim.ready)[tid]]
    ensures tasks.vruntime
         == old(tasks.vruntime)[tid := Rebased(old(tasks.vruntime)[tid], victim.minVruntime, thief.minVruntime)]
    ensures tasks.queue == old(tasks.queue)[tid := thief.id]
  {
    hide Rebased;
    var key := victim.ready[tid];
    victim.ready := victim.ready - {tid};
    tasks.vruntime := tasks.vruntime[tid := Rebased(tasks.vruntime[tid], victim.minVruntime, thief.minVruntime)];
    thief.ready := thief.ready[tid := key];
    tasks.queue := tasks.queue[tid := thief.id];
  }

  lemma StealStart(b: Both, r: Rules)
    ensures Stolen(b, {}, map[], b, r)
  {
    assert Restrict(b.victim, {}) == map[];
    assert b.thief + map[] == b.thief;
  }

  /** Since at most half have been taken, some task is still queued. */
  lemma SomeLeft(b: Both, moved: set<nat>, kept: map<nat, int>, b': Both, r: Rules)
    requires Stolen(b, moved, kept, b', r) && |moved| + |kept| < |b.victim| / 2
    ensures exists t: nat :: t in b'.victim && (InOrder(b'.victim) ==> IsTop(b'.victim, t))
  {
    hide InOrder, IsTop;
    SetSizes(moved, kept.Keys, b.victim.Keys);
    assert b'.victim.Keys == b.victim.Keys - (moved + kept.Keys);
    assert |b'.victim.Keys| > 0;
    var t: nat :| t in b'.victim;
    if InOrder(b'.victim) {
      var top := TopExists(b'.victim);
      TopIsIn(b'.victim, top);
    }
  }

  lemma TopIsIn(ready: map<nat, int>, tid: nat)
    requires IsTop(ready, tid)
    ensures tid in ready
  {
  }

  lemma TakenFromVictim(thief: map<nat, int>, victim: map<nat, int>, moved: set<nat>, kept: map<nat, int>,
                        thief': map<nat, int>, victim': map<nat, int>, tid: nat)
    requires Stealing(thief, victim, moved, kept, thief', victim') && tid in victim'
    ensures tid in victim && tid !in moved && |moved + {tid}| == |moved| + 1
    ensures |kept[tid := victim'[tid]]| == |kept| + 1
  {
  }

  lemma MoveTask(moved: set<nat>, vruntime: map<nat, int>, queue: map<nat, nat>,
                 vruntime': map<nat, int>, queue': map<nat, nat>, from: int, to: int, thief: nat, tid: nat)
    requires TasksMoved(moved, vruntime, queue, vruntime', queue', from, to, thief)
    requires tid !in moved && tid in vruntime && tid in queue
    ensures tid in vruntime'
    ensures TasksMoved(moved + {tid}, vruntime, queue,
                       vruntime'[tid := Rebased(vruntime'[tid], from, to)], queue'[tid := thief], from, to, thief)
  {
    hide Rebased;
  }

  lemma PutBack(b: Both, moved: set<nat>, kept: map<nat, int>, b': Both, r: Rules)
    requires Stolen(b, moved, kept, b', r)
    ensures b'.victim + kept == b.victim - moved && moved <= b.victim.Keys && b'.thief == b.thief + Restrict(b.victim, moved)
    ensures TasksMoved(moved, b.vruntime, b.queue, b'.vruntime, b'.queue, r.from, r.to, r.id)
    ensures Movable(moved, r.busy, r.current)
    ensures FromTop(b.victim, moved + kept.Keys) && moved == Unhindered(moved + kept.Keys, r.busy, r.current)
    ensures |moved + kept.Keys| == |moved| + |kept|
  {
    hide TasksMoved, FromTop, Movable, Unhindered, Chosen, Restrict;
    ChosenDone(b.victim, moved, kept.Keys, r.busy, r.current);
    KeptBack(b.victim, moved, kept, b'.victim);
  }

  lemma KeptBack(victim: map<nat, int>, moved: set<nat>, kept: map<nat, int>, victim': map<nat, int>)
    requires victim' == victim - (moved + kept.Keys) && kept.Keys <= victim.Keys && moved !! kept.Keys
    requires forall t :: t in kept ==> kept[t] == victim[t]
    ensures victim' + kept == victim - moved
  {
  }
}
