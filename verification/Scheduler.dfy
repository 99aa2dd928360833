/**
 All CPUs' run queues and the task arena as one state machine. Each region that holds a lock is a
 step; waking and completing hold the task's lock over several steps, so other CPUs interleave.
 */
module Scheduler {
  import opened Machine
  import RunQueues

  /** Who holds the lock of a task across steps; `Gone` once its future has been dropped. */
  datatype Lock = Free | Waking(q: nat) | Completing(q: nat) | Gone

  datatype Task = Task(queue: nat, lock: Lock)

  /** What a CPU owns: its queued tids, `current_task`, and the tid whose future it is polling. */
  datatype Cpu = Cpu(ready: set<nat>, current: Option<nat>, polling: Option<nat>)

  datatype State = State(arena: map<nat, Task>, cpus: seq<Cpu>)

  datatype Step =
    | Spawn(cpu: nat, tid: nat)
    | WakeBegin(tid: nat)
    | WakeEnd(tid: nat)
    | Pop(cpu: nat, tid: nat)
    | Park(cpu: nat)
    | RemoveAfterRun(cpu: nat, tid: nat)
    | Steal(thief: nat, victim: nat, moved: set<nat>)
    | CompleteBegin(cpu: nat, tid: nat)
    | CompleteRemove(tid: nat)
    | CompleteEnd(tid: nat)

  predicate Init(s: State) {
    s.arena == map[] && forall c :: 0 <= c < |s.cpus| ==> s.cpus[c] == Cpu({}, None, None)
  }

  function SetLock(s: State, tid: nat, lock: Lock): State
    requires tid in s.arena
  {
    s.(arena := s.arena[tid := s.arena[tid].(lock := lock)])
  }

  function SetReady(s: State, c: nat, ready: set<nat>): State
    requires c < |s.cpus|
  {
    s.(cpus := s.cpus[c := s.cpus[c].(ready := ready)])
  }

  /** The tasks in `moved` now point to queue `q`. */
  function Redirect(arena: map<nat, Task>, moved: set<nat>, q: nat): map<nat, Task> {
    map t | t in arena :: if t in moved then arena[t].(queue := q) else arena[t]
  }

  /** Tids whose lock cannot be taken. */
  function Locked(arena: map<nat, Task>): set<nat> {
    set t | t in arena && arena[t].lock != Free
  }

  /** `step` may happen in `s`; with `tryLock` false, a steal does not look at the tasks' locks. */
  predicate Enabled(s: State, step: Step, tryLock: bool) {
    match step
    case Spawn(c, t) => c < |s.cpus| && t !in s.arena
    case WakeBegin(t) => t in s.arena && s.arena[t].lock == Free
    case WakeEnd(t) => t in s.arena && s.arena[t].lock.Waking? && s.arena[t].lock.q < |s.cpus|
    case Pop(c, t) => c < |s.cpus| && t in s.cpus[c].ready
    case Park(c) => c < |s.cpus|
    case RemoveAfterRun(c, t) => c < |s.cpus| && s.cpus[c].current == Some(t)
    case Steal(thief, victim, moved) =>
      && thief < |s.cpus| && victim < |s.cpus| && thief != victim
      && moved <= s.cpus[victim].ready && 2 * |moved| <= |s.cpus[victim].ready|
      && RunQueues.Movable(moved, if tryLock then Locked(s.arena) else {}, s.cpus[victim].current)
    case CompleteBegin(c, t) => c < |s.cpus| && t in s.arena && s.arena[t].lock == Free
    case CompleteRemove(t) => t in s.arena && s.arena[t].lock.Completing? && s.arena[t].lock.q < |s.cpus|
    case CompleteEnd(t) => t in s.arena && s.arena[t].lock == Gone
  }

  function Next(s: State, step: Step): State
    requires Enabled(s, step, false) || Enabled(s, step, true)
  {
    match step
    case Spawn(c, t) =>
      SetReady(s, c, s.cpus[c].ready + {t}).(arena := s.arena[t := Task(c, Free)])
    case WakeBegin(t) => SetLock(s, t, Waking(s.arena[t].queue))
    case WakeEnd(t) =>
      var q := s.arena[t].lock.q;
      SetLock(SetReady(s, q, s.cpus[q].ready + {t}), t, Free)
    case Pop(c, t) => s.(cpus := s.cpus[c := Cpu(s.cpus[c].ready - {t}, Some(t), Some(t))])
    case Park(c) => s.(cpus := s.cpus[c := s.cpus[c].(polling := None)])
    case RemoveAfterRun(c, t) => SetReady(s, c, s.cpus[c].ready - {t})
    case Steal(thief, victim, moved) =>
      var left := SetReady(s, victim, s.cpus[victim].ready - moved);
      SetReady(left, thief, s.cpus[thief].ready + moved).(arena := Redirect(s.arena, moved, thief))
    case CompleteBegin(c, t) =>
      SetLock(s.(cpus := s.cpus[c := s.cpus[c].(polling := None)]), t, Completing(s.arena[t].queue))
    case CompleteRemove(t) =>
      var q := s.arena[t].lock.q;
      SetLock(SetReady(s, q, s.cpus[q].ready - {t}), t, Gone)
    case CompleteEnd(t) => s.(arena := s.arena - {t})
  }

  // -------------------------------------------------------------- the invariant

  /** A task points to a queue that exists; a lock held across steps remembers that same queue. */
  predicate TaskOk(task: Task, cpus: nat) {
    && task.queue < cpus
    && (task.lock.Waking? || task.lock.Completing? ==> task.lock.q == task.queue)
  }

  /** A queued tid is in the arena, and its task points to this queue and is not being torn down. */
  predicate QueuedOk(arena: map<nat, Task>, tid: nat, c: nat) {
    tid in arena && arena[tid].queue == c && arena[tid].lock != Gone
  }

  ghost predicate Inv(s: State) {
    && (forall t :: t in s.arena ==> TaskOk(s.arena[t], |s.cpus|))
    && (forall c, t :: 0 <= c < |s.cpus| && t in s.cpus[c].ready ==> QueuedOk(s.arena, t, c))
  }

  lemma StepKeepsInv(s: State, step: Step)
    requires Inv(s) && Enabled(s, step, true)
    ensures Inv(Next(s, step))
  {
    match step {
      case Steal(thief, victim, moved) => StealKeepsInv(s, thief, victim, moved);
      case _ =>
    }
  }

  /** No moved task is locked, so no lock remembers the queue it leaves. */
  lemma StealKeepsInv(s: State, thief: nat, victim: nat, moved: set<nat>)
    requires Inv(s) && Enabled(s, Steal(thief, victim, moved), true)
    ensures Inv(Next(s, Steal(thief, victim, moved)))
  {
    var s' := Next(s, Steal(thief, victim, moved));
    forall t | t in s'.arena ensures TaskOk(s'.arena[t], |s'.cpus|) {
      assert TaskOk(s.arena[t], |s.cpus|);
      assert s.arena[t].lock != Free ==> t in Locked(s.arena);
    }
    forall c, t | 0 <= c < |s'.cpus| && t in s'.cpus[c].ready ensures QueuedOk(s'.arena, t, c) {
      assert QueuedOk(s.arena, t, if c == thief && t in moved then victim else c);
    }
  }

  /** A run from the empty state by `steps`. */
  ghost predicate IsRun(trace: seq<State>, steps: seq<Step>, tryLock: bool) {
    && |trace| == |steps| + 1 && Init(trace[0])
    && forall i :: 0 <= i < |steps| ==> Enabled(trace[i], steps[i], tryLock) && trace[i + 1] == Next(trace[i], steps[i])
  }

  lemma {:induction false} RunKeepsInv(trace: seq<State>, steps: seq<Step>, i: nat)
    requires IsRun(trace, steps, true) && i < |trace|
    ensures Inv(trace[i])
  {
    if i > 0 {
      RunKeepsInv(trace, steps, i - 1);
      StepKeepsInv(trace[i - 1], steps[i - 1]);
    }
  }

  /** In every reachable state a tid is queued on one CPU at most, and popping it finds its task. */
  lemma NeverQueuedTwice(trace: seq<State>, steps: seq<Step>, i: nat, c: nat, d: nat, tid: nat)
    requires IsRun(trace, steps, true) && i < |trace| && c < |trace[i].cpus| && d < |trace[i].cpus|
    requires tid in trace[i].cpus[c].ready
    ensures tid in trace[i].arena && trace[i].arena[tid].queue == c
    ensures tid in trace[i].cpus[d].ready ==> c == d
  {
    RunKeepsInv(trace, steps, i);
    assert QueuedOk(trace[i].arena, tid, c);
    assert tid in trace[i].cpus[d].ready ==> QueuedOk(trace[i].arena, tid, d);
  }

  /** Every tid queued anywhere. */
  ghost function AllReady(s: State): set<nat> {
    set c, t | 0 <= c < |s.cpus| && t in s.cpus[c].ready :: t
  }

  /** A CPU polls its current task, which no steal takes from it. */
  ghost predicate PollsCurrent(s: State) {
    forall c :: 0 <= c < |s.cpus| && s.cpus[c].polling.Some? ==> s.cpus[c].current == s.cpus[c].polling
  }

  lemma {:induction false} RunPollsCurrent(trace: seq<State>, steps: seq<Step>, tryLock: bool, i: nat)
    requires IsRun(trace, steps, tryLock) && i < |trace|
    ensures PollsCurrent(trace[i])
    ensures i < |steps| && steps[i].Steal? ==>
              && steps[i].victim < |trace[i].cpus|
              && forall t :: t in steps[i].moved ==> trace[i].cpus[steps[i].victim].polling != Some(t)
  {
    hide Next, Enabled, PollsCurrent;
    if i == 0 {
      NobodyPolls(trace[0]);
    } else {
      RunPollsCurrent(trace, steps, tryLock, i - 1);
      StepPollsCurrent(trace[i - 1], steps[i - 1], tryLock);
    }
    if i < |steps| && steps[i].Steal? {
      PolledNotMoved(trace[i], steps[i], tryLock);
    }
  }

  lemma NobodyPolls(s: State)
    requires Init(s)
    ensures PollsCurrent(s)
  {
  }

  lemma PolledNotMoved(s: State, step: Step, tryLock: bool)
    requires PollsCurrent(s) && step.Steal? && Enabled(s, step, tryLock)
    ensures step.victim < |s.cpus| && forall t :: t in step.moved ==> s.cpus[step.victim].polling != Some(t)
  {
  }

  /** A CPU polls from the pop of a task until that task parks or completes. */
  lemma PollsIff(s: State, step: Step, tryLock: bool, c: nat, t: nat)
    requires Enabled(s, step, tryLock) && c < |s.cpus|
    ensures |Next(s, step).cpus| == |s.cpus|
    ensures Next(s, step).cpus[c].polling == Some(t) <==>
            || step == Pop(c, t)
            || (&& s.cpus[c].polling == Some(t) && !(step.Pop? && step.cpu == c)
                && step != Park(c) && !(step.CompleteBegin? && step.cpu == c))
  {
    hide RunQueues.Movable, Locked, Redirect;
  }

  lemma StepPollsCurrent(s: State, step: Step, tryLock: bool)
    requires PollsCurrent(s) && Enabled(s, step, tryLock)
    ensures PollsCurrent(Next(s, step))
  {
    hide RunQueues.Movable, Locked, Redirect;
  }

  /** A steal keeps the set of queued tids and the set of live tasks. */
  lemma StealConserves(s: State, thief: nat, victim: nat, moved: set<nat>)
    requires Enabled(s, Steal(thief, victim, moved), true)
    ensures AllReady(Next(s, Steal(thief, victim, moved))) == AllReady(s)
    ensures Next(s, Steal(thief, victim, moved)).arena.Keys == s.arena.Keys
  {
    var s' := Next(s, Steal(thief, victim, moved));
    forall t | t in AllReady(s) ensures t in AllReady(s') {
      var c :| 0 <= c < |s.cpus| && t in s.cpus[c].ready;
      assert t in s'.cpus[if c == victim && t in moved then thief else c].ready;
    }
    forall t | t in AllReady(s') ensures t in AllReady(s) {
      var c :| 0 <= c < |s'.cpus| && t in s'.cpus[c].ready;
      assert t in s.cpus[if c == thief && t in moved then victim else c].ready;
    }
  }

  /** Queued tids after `ready` has become the ready set of CPU `c`. */
  lemma ReadyAfterSet(s: State, c: nat, ready: set<nat>, t: nat)
    requires c < |s.cpus|
    ensures t in AllReady(SetReady(s, c, ready)) <==>
              t in ready || exists d :: 0 <= d < |s.cpus| && d != c && t in s.cpus[d].ready
  {
    var s' := SetReady(s, c, ready);
    if t in ready {
      assert t in s'.cpus[c].ready;
    }
    if d :| 0 <= d < |s.cpus| && d != c && t in s.cpus[d].ready {
      assert t in s'.cpus[d].ready;
    }
  }

  /** Taking a tid off the one queue it may be on takes it off all. */
  lemma RemovedEverywhere(s: State, c: nat, tid: nat)
    requires Inv(s) && c < |s.cpus| && (tid in s.cpus[c].ready || (tid in s.arena && s.arena[tid].queue == c))
    ensures AllReady(SetReady(s, c, s.cpus[c].ready - {tid})) == AllReady(s) - {tid}
  {
    forall t ensures t in AllReady(SetReady(s, c, s.cpus[c].ready - {tid})) <==> t in AllReady(s) && t != tid {
      ReadyAfterSet(s, c, s.cpus[c].ready - {tid}, t);
      ReadyAfterSet(s, c, s.cpus[c].ready, t);
      assert SetReady(s, c, s.cpus[c].ready).cpus == s.cpus;
      assert forall d :: 0 <= d < |s.cpus| && tid in s.cpus[d].ready ==> QueuedOk(s.arena, tid, d);
    }
  }

  lemma InsertedOnce(s: State, c: nat, tid: nat)
    requires c < |s.cpus|
    ensures AllReady(SetReady(s, c, s.cpus[c].ready + {tid})) == AllReady(s) + {tid}
  {
    forall t ensures t in AllReady(SetReady(s, c, s.cpus[c].ready + {tid})) <==> t in AllReady(s) || t == tid {
      ReadyAfterSet(s, c, s.cpus[c].ready + {tid}, t);
      ReadyAfterSet(s, c, s.cpus[c].ready, t);
      assert SetReady(s, c, s.cpus[c].ready).cpus == s.cpus;
    }
  }

  /** Which tids are queued after a step, over all CPUs: no step drops or adds any other. */
  ghost function QueuedAfter(s: State, step: Step): set<nat>
    requires Enabled(s, step, true)
  {
    match step
    case Spawn(_, t) => AllReady(s) + {t}
    case WakeEnd(t) => AllReady(s) + {t}
    case Pop(_, t) => AllReady(s) - {t}
    case RemoveAfterRun(c, t) => if t in s.cpus[c].ready then AllReady(s) - {t} else AllReady(s)
    case CompleteRemove(t) => AllReady(s) - {t}
    case _ => AllReady(s)
  }

  lemma SameReady(s: State, s': State)
    requires |s.cpus| == |s'.cpus| && forall c :: 0 <= c < |s.cpus| ==> s.cpus[c].ready == s'.cpus[c].ready
    ensures AllReady(s) == AllReady(s')
  {
  }

  lemma StepConservesQueued(s: State, step: Step)
    requires Inv(s) && Enabled(s, step, true)
    ensures AllReady(Next(s, step)) == QueuedAfter(s, step)
    ensures Next(s, step).arena.Keys ==
              match step
              case Spawn(_, t) => s.arena.Keys + {t}
              case CompleteEnd(t) => s.arena.Keys - {t}
              case _ => s.arena.Keys
  {
    hide AllReady, Inv;
    var s' := Next(s, step);
    match step {
      case Spawn(c, t) =>
        InsertedOnce(s, c, t);
        SameReady(s', SetReady(s, c, s.cpus[c].ready + {t}));
      case WakeEnd(t) =>
        InsertedOnce(s, s.arena[t].lock.q, t);
        SameReady(s', SetReady(s, s.arena[t].lock.q, s.cpus[s.arena[t].lock.q].ready + {t}));
      case Pop(c, t) =>
        RemovedEverywhere(s, c, t);
        SameReady(s', SetReady(s, c, s.cpus[c].ready - {t}));
      case RemoveAfterRun(c, t) =>
        if t in s.cpus[c].ready {
          RemovedEverywhere(s, c, t);
        } else {
          SameReady(s', s);
        }
      case CompleteRemove(t) =>
        CompletingQueue(s, t);
        RemovedEverywhere(s, s.arena[t].lock.q, t);
        SameReady(s', SetReady(s, s.arena[t].lock.q, s.cpus[s.arena[t].lock.q].ready - {t}));
      case Steal(thief, victim, moved) => StealConserves(s, thief, victim, moved);
      case _ => SameReady(s', s);
    }
  }

  lemma CompletingQueue(s: State, t: nat)
    requires Inv(s) && t in s.arena && s.arena[t].lock.Completing?
    ensures s.arena[t].lock.q == s.arena[t].queue
  {
    assert TaskOk(s.arena[t], |s.cpus|);
  }

  /**
   If wakes could come at any time, a steal that does not look at the locks could leave a tid on two
   queues: here tid 1 is woken while it is queued, stolen between the two halves of the wake, and
   queued again where it was.
   */
  lemma TryLockIsNeeded() returns (trace: seq<State>, steps: seq<Step>)
    ensures IsRun(trace, steps, false)
    ensures var s := trace[|steps|]; |s.cpus| == 2 && 1 in s.cpus[0].ready && 1 in s.cpus[1].ready
  {
    hide Next, Enabled;
    var none := Cpu({}, None, None);
    var s0 := State(map[], [none, none]);
    var s1 := State(map[1 := Task(0, Free)], [Cpu({1}, None, None), none]);
    var s2 := State(map[1 := Task(0, Free), 2 := Task(0, Free)], [Cpu({1, 2}, None, None), none]);
    var s3 := SetLock(s2, 1, Waking(0));
    var s4 := State(map[1 := Task(1, Waking(0)), 2 := Task(0, Free)], [Cpu({2}, None, None), Cpu({1}, None, None)]);
    var s5 := State(map[1 := Task(1, Free), 2 := Task(0, Free)], [Cpu({2, 1}, None, None), Cpu({1}, None, None)]);
    trace, steps := [s0, s1, s2, s3, s4, s5], [Spawn(0, 1), Spawn(0, 2), WakeBegin(1), Steal(1, 0, {1}), WakeEnd(1)];
    TwoSpawns(s0, s1, s2);
    BeginWake(s2, s3);
    UnlockedSteal(s3, s4);
    LateWake(s4, s5);
  }

  lemma BeginWake(s: State, s': State)
    requires 1 in s.arena && s.arena[1] == Task(0, Free) && s' == SetLock(s, 1, Waking(0))
    ensures Enabled(s, WakeBegin(1), false) && Next(s, WakeBegin(1)) == s'
  {
  }

  lemma TwoSpawns(s0: State, s1: State, s2: State)
    requires s0 == State(map[], [Cpu({}, None, None), Cpu({}, None, None)])
    requires s1 == State(map[1 := Task(0, Free)], [Cpu({1}, None, None), Cpu({}, None, None)])
    requires s2 == State(map[1 := Task(0, Free), 2 := Task(0, Free)], [Cpu({1, 2}, None, None), Cpu({}, None, None)])
    ensures Enabled(s0, Spawn(0, 1), false) && Next(s0, Spawn(0, 1)) == s1
    ensures Enabled(s1, Spawn(0, 2), false) && Next(s1, Spawn(0, 2)) == s2
  {
    assert s0.cpus[0].ready + {1} == {1} && s1.cpus[0].ready + {2} == {1, 2};
    assert Next(s1, Spawn(0, 2)).arena == s2.arena;
  }

  lemma LateWake(s: State, s': State)
    requires s == State(map[1 := Task(1, Waking(0)), 2 := Task(0, Free)], [Cpu({2}, None, None), Cpu({1}, None, None)])
    requires s' == State(map[1 := Task(1, Free), 2 := Task(0, Free)], [Cpu({2, 1}, None, None), Cpu({1}, None, None)])
    ensures Enabled(s, WakeEnd(1), false) && Next(s, WakeEnd(1)) == s'
  {
    assert s.cpus[0].ready + {1} == {2, 1};
    assert Next(s, WakeEnd(1)).arena == s'.arena;
  }

  lemma UnlockedSteal(s: State, s': State)
    requires s == State(map[1 := Task(0, Waking(0)), 2 := Task(0, Free)], [Cpu({1, 2}, None, None), Cpu({}, None, None)])
    requires s' == State(map[1 := Task(1, Waking(0)), 2 := Task(0, Free)], [Cpu({2}, None, None), Cpu({1}, None, None)])
    ensures Enabled(s, Steal(1, 0, {1}), false) && Next(s, Steal(1, 0, {1})) == s'
  {
    assert s.cpus[0].ready - {1} == {2};
    assert Redirect(s.arena, {1}, 1) == s'.arena;
  }

  /** `StealTasks` leaves the two queues and the task table as the `Steal` step does. */
  lemma StealTasksIsSteal(s: State, thief: nat, victim: nat, moved: set<nat>,
                          ready: seq<map<nat, int>>, ready': seq<map<nat, int>>,
                          vruntime: map<nat, int>, queue: map<nat, nat>, vruntime': map<nat, int>, queue': map<nat, nat>,
                          from: int, to: int)
    requires thief < |s.cpus| && victim < |s.cpus| && thief != victim && |ready| == |ready'| == |s.cpus|
    requires forall c :: 0 <= c < |s.cpus| ==> s.cpus[c].ready == ready[c].Keys
    requires queue.Keys == s.arena.Keys && forall t :: t in queue ==> queue[t] == s.arena[t].queue
    requires moved <= ready[victim].Keys && 2 * |moved| <= |ready[victim]|
    requires RunQueues.Movable(moved, Locked(s.arena), s.cpus[victim].current)
    requires ready' == ready[victim := ready[victim] - moved]
                            [thief := ready[thief] + RunQueues.Restrict(ready[victim], moved)]
    requires RunQueues.TasksMoved(moved, vruntime, queue, vruntime', queue', from, to, thief)
    ensures Enabled(s, Steal(thief, victim, moved), true)
    ensures var s' := Next(s, Steal(thief, victim, moved));
            && (forall c :: 0 <= c < |s.cpus| ==> s'.cpus[c].ready == ready'[c].Keys)
            && queue'.Keys == s'.arena.Keys && forall t :: t in queue' ==> queue'[t] == s'.arena[t].queue
  {
    hide RunQueues.Movable, RunQueues.Rebased;
    assert |ready[victim].Keys| == |ready[victim]|;
    var s' := Next(s, Steal(thief, victim, moved));
    forall c | 0 <= c < |s.cpus| ensures s'.cpus[c].ready == ready'[c].Keys {
      assert RunQueues.Restrict(ready[victim], moved).Keys == moved;
    }
  }

  // ------------------------------------------- one live runnable for each task

  /**
   When the executor only schedules a task that has no live runnable, and only a task that is being
   polled completes: the contract of the futures library.
   */
  ghost predicate Disciplined(s: State, step: Step) {
    match step
    case WakeBegin(t) => forall c :: 0 <= c < |s.cpus| ==> t !in s.cpus[c].ready && s.cpus[c].polling != Some(t)
    case Pop(c, _) => c < |s.cpus| && s.cpus[c].polling == None
    case CompleteBegin(c, t) => c < |s.cpus| && s.cpus[c].polling == Some(t)
    case _ => true
  }

  /** A tid being polled on a CPU is live, queued nowhere, polled nowhere else and not being woken. */
  ghost predicate PolledOk(s: State, c: nat, tid: nat) {
    && tid in s.arena && s.arena[tid].lock == Free
    && (forall d :: 0 <= d < |s.cpus| ==> tid !in s.cpus[d].ready)
    && (forall d :: 0 <= d < |s.cpus| && d != c ==> s.cpus[d].polling != Some(tid))
  }

  /** The invariant, and: at most one of queued, being woken, being polled. */
  ghost predicate OneRunnable(s: State) {
    && Inv(s)
    && (forall c, t :: 0 <= c < |s.cpus| && t in s.cpus[c].ready ==> s.arena[t].lock == Free)
    && (forall c :: 0 <= c < |s.cpus| && s.cpus[c].polling.Some? ==> PolledOk(s, c, s.cpus[c].polling.value))
  }

  lemma StepKeepsOneRunnable(s: State, step: Step)
    requires OneRunnable(s) && Enabled(s, step, true) && Disciplined(s, step)
    ensures OneRunnable(Next(s, step))
  {
    StepKeepsInv(s, step);
    var s' := Next(s, step);
    forall c | 0 <= c < |s'.cpus| && s'.cpus[c].polling.Some?
      ensures PolledOk(s', c, s'.cpus[c].polling.value)
    {
      StepKeepsPolled(s, step, c);
    }
    QueuedAreFree(s, step);
  }

  lemma QueuedAreFree(s: State, step: Step)
    requires OneRunnable(s) && Enabled(s, step, true) && Disciplined(s, step) && Inv(Next(s, step))
    ensures var s' := Next(s, step);
            forall c, t :: 0 <= c < |s'.cpus| && t in s'.cpus[c].ready ==> s'.arena[t].lock == Free
  {
    hide RunQueues.Movable, Locked, TaskOk;
  }

  lemma StepKeepsPolled(s: State, step: Step, c: nat)
    requires OneRunnable(s) && Enabled(s, step, true) && Disciplined(s, step) && Inv(Next(s, step))
    requires c < |s.cpus| && Next(s, step).cpus[c].polling.Some?
    ensures PolledOk(Next(s, step), c, Next(s, step).cpus[c].polling.value)
  {
    hide Inv, QueuedOk, TaskOk;
    match step {
      case Pop(d, tid) => PoppedIsNowhereElse(s, d, tid);
      case Steal(thief, victim, moved) =>
        assert PolledOk(s, c, s.cpus[c].polling.value);
        StealKeepsPolled(s, thief, victim, moved, c, s.cpus[c].polling.value);
      case _ => assert PolledOk(s, c, s.cpus[c].polling.value);
    }
  }

  lemma StealKeepsPolled(s: State, thief: nat, victim: nat, moved: set<nat>, c: nat, tid: nat)
    requires Enabled(s, Steal(thief, victim, moved), true) && c < |s.cpus| && PolledOk(s, c, tid)
    ensures PolledOk(Next(s, Steal(thief, victim, moved)), c, tid)
  {
    hide RunQueues.Movable, Locked;
    assert tid !in moved;
  }

  lemma PoppedIsNowhereElse(s: State, c: nat, tid: nat)
    requires OneRunnable(s) && c < |s.cpus| && tid in s.cpus[c].ready
    ensures tid in s.arena && s.arena[tid].lock == Free
    ensures forall d :: 0 <= d < |s.cpus| ==> (tid in s.cpus[d].ready ==> c == d) && s.cpus[d].polling != Some(tid)
  {
  }

  /** With one live runnable for each future, no queued tid is locked: looking at the locks changes nothing. */
  lemma LocksNeverDecide(s: State, step: Step)
    requires OneRunnable(s) && Enabled(s, step, false)
    ensures Enabled(s, step, true)
  {
    hide Inv;
    if step.Steal? {
      forall t | t in step.moved ensures t !in Locked(s.arena) {
        assert t in s.cpus[step.victim].ready;
      }
    }
  }

  ghost predicate IsDisciplinedRun(trace: seq<State>, steps: seq<Step>, tryLock: bool) {
    IsRun(trace, steps, tryLock) && forall i :: 0 <= i < |steps| ==> Disciplined(trace[i], steps[i])
  }

  /** Over every disciplined run, whether steals look at the locks or not. */
  lemma {:induction false} RunKeepsOneRunnable(trace: seq<State>, steps: seq<Step>, tryLock: bool, i: nat)
    requires IsDisciplinedRun(trace, steps, tryLock) && i < |trace|
    ensures OneRunnable(trace[i])
  {
    hide Enabled, Next, Disciplined, OneRunnable;
    if i == 0 {
      InitOk(trace[0]);
    } else {
      RunKeepsOneRunnable(trace, steps, tryLock, i - 1);
      if !tryLock {
        LocksNeverDecide(trace[i - 1], steps[i - 1]);
      }
      StepKeepsOneRunnable(trace[i - 1], steps[i - 1]);
    }
  }

  lemma InitOk(s: State)
    requires Init(s)
    ensures OneRunnable(s)
  {
  }

  /** So under the contract of the futures library the lock test is redundant: such runs are runs with it. */
  lemma TryLockIsRedundant(trace: seq<State>, steps: seq<Step>)
    requires IsDisciplinedRun(trace, steps, false)
    ensures IsDisciplinedRun(trace, steps, true)
  {
    hide Next, Disciplined, OneRunnable, Enabled;
    forall i | 0 <= i < |steps| ensures Enabled(trace[i], steps[i], true) {
      RunKeepsOneRunnable(trace, steps, false, i);
      LocksNeverDecide(trace[i], steps[i]);
    }
  }

  /** No two CPUs ever poll the same task, and no task is queued while it is polled. */
  lemma NeverRunsTwice(trace: seq<State>, steps: seq<Step>, tryLock: bool, i: nat, c: nat, d: nat, tid: nat)
    requires IsDisciplinedRun(trace, steps, tryLock) && i < |trace| && c < |trace[i].cpus| && d < |trace[i].cpus|
    requires trace[i].cpus[c].polling == Some(tid)
    ensures trace[i].cpus[d].polling == Some(tid) ==> c == d
    ensures tid !in trace[i].cpus[d].ready
  {
    RunKeepsOneRunnable(trace, steps, tryLock, i);
    assert PolledOk(trace[i], c, tid);
  }
}
