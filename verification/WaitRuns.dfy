/** Runs of waiting and exiting that fall short of what one may expect, and where the line is. */
module WaitRuns {
  import EB = EventBus
  import opened WaitExit

  /** One more step of a run. */
  lemma Go(s: State, step: Step, late: bool) returns (s': State)
    requires Reachable(s, late) && Enabled(s, step, late)
    ensures s' == Next(s, step, late) && Reachable(s', late)
  {
    hide Enabled, Next;
    var trace, steps :| EndsIn(trace, steps, s, late);
    s' := Next(s, step, late);
    assert Goes(s, step, s', late);
    Extend(trace, steps, s, step, s', late);
    assert EndsIn(trace + [s'], steps + [step], s', late);
  }

  lemma Extend(trace: seq<State>, steps: seq<Step>, s: State, step: Step, s': State, late: bool)
    requires EndsIn(trace, steps, s, late) && Goes(s, step, s', late)
    ensures EndsIn(trace + [s'], steps + [step], s', late)
  {
    hide Goes;
    var t, ss := trace + [s'], steps + [step];
    forall i | 0 <= i < |ss| ensures Goes(t[i], ss[i], t[i + 1], late) {
      assert i < |steps| ==> Goes(trace[i], steps[i], trace[i + 1], late);
    }
  }

  const QUIET: EB.Bus := EB.Bus(0, [], [])

  function Live(pid: nat, mine: bool): Proc {
    Proc(pid, mine, false, false, false, false)
  }

  function Zombie(pid: nat, mine: bool): Proc {
    Proc(pid, mine, true, false, true, false)
  }

  lemma Begin(late: bool) returns (s: State)
    ensures Init(s) && Reachable(s, late)
  {
    s := State([], map[], [], QUIET, AnyChild, Idle, 0, multiset{}, multiset{}, []);
    assert EndsIn([s], [], s, late);
  }

  /** An exit from beginning to end, outside a scan. */
  lemma Exit(s: State, id: nat, late: bool) returns (s': State)
    requires Reachable(s, late) && !HoldsLock(s.phase)
    requires id < |s.procs| && s.procs[id] == Live(s.procs[id].pid, s.procs[id].mine)
    ensures Reachable(s', late)
    ensures s' == s.(procs := s.procs[id := Zombie(s.procs[id].pid, s.procs[id].mine)],
                     bus := if s.procs[id].mine then EB.Changed(s.bus, 0, EB.CHILD_PROCESS_QUIT) else s.bus)
  {
    hide Reachable, EB.Changed;
    var a := Go(s, ExitBegin(id, false), late);
    var b := Go(a, ExitNotify(id), late);
    s' := Go(b, ExitEnd(id), late);
    assert s'.procs == s.procs[id := Zombie(s.procs[id].pid, s.procs[id].mine)];
  }

  lemma RaiseAndClear()
    ensures !EB.Intersects(0, EB.CHILD_PROCESS_QUIT) && EB.Intersects(EB.CHILD_PROCESS_QUIT, EB.CHILD_PROCESS_QUIT)
    ensures EB.Changed(QUIET, 0, EB.CHILD_PROCESS_QUIT) == EB.Bus(EB.CHILD_PROCESS_QUIT, [], [])
    ensures EB.Changed(EB.Bus(EB.CHILD_PROCESS_QUIT, [], []), EB.CHILD_PROCESS_QUIT, 0) == QUIET
  {
  }

  /** A scan for the pid of a live child, from the reading of the table to giving up. */
  lemma FruitlessScan(s: State, late: bool) returns (s': State)
    requires Reachable(s, late) && s.phase == Scanning(0) && s.call.OnePid? && s.call.pid in s.table
    requires var id := s.table[s.call.pid];
             id < |s.procs| && s.procs[id] == Live(s.call.pid, true) && id in s.children
    ensures Reachable(s', late) && s' == s.(phase := Waiting)
  {
    hide Reachable;
    var a := Go(s, ScanOne, late);
    var b := Go(a, LookOne, late);
    var i :| 0 <= i < |s.children| && s.children[i] == s.table[s.call.pid];
    assert !NoneToAwait(b) by {
      assert b.children[i] < |b.procs| && !b.procs[b.children[i]].dropped;
    }
    s' := Go(b, ScanEnd, late);
  }

  /** Two live children. */
  lemma TwoChildren(p: nat, q: nat, late: bool) returns (s: State)
    requires p != q
    ensures Reachable(s, late)
    ensures s == State([Live(p, true), Live(q, true)], map[p := 0, q := 1], [0, 1], QUIET, AnyChild, Idle, 0,
                       multiset{}, multiset{}, [])
  {
    hide Reachable;
    var s0 := Begin(late);
    var s1 := Go(s0, Fork(true, p), late);
    assert s1 == State([Live(p, true)], map[p := 0], [0], QUIET, AnyChild, Idle, 0, multiset{}, multiset{}, []);
    s := Go(s1, Fork(true, q), late);
  }

  /**
   A wait for one pid takes down the flag that another child raised: the parent ends up blocked with
   the flag clear although that child has exited.
   */
  lemma OtherChildForgotten(p: nat, q: nat) returns (s: State)
    requires p != q
    ensures Reachable(s, false) && s.phase.Blocked? && s.call == OnePid(p) && !FlagSet(s)
    ensures |s.procs| == 2 && s.procs[1].pid == q && s.procs[1].mine && HasExited(s, 1)
    ensures StillNamed(s, 1) && 1 in s.children
  {
    hide Reachable, EB.Changed, EB.Intersects;
    RaiseAndClear();
    var s0 := TwoChildren(p, q, false);
    var s1 := Exit(s0, 1, false);
    var s2 := Go(s1, Call(OnePid(p)), false);
    var s3 := FruitlessScan(s2, false);
    var s4 := Go(s3, PollBus, false);
    assert s4.phase == Awake && s4.bus == s3.bus;
    var s5 := Go(s4, ClearFlag, false);
    var s6 := Go(s5, Rescan, false);
    var s7 := FruitlessScan(s6, false);
    s := Go(s7, PollBus, false);
  }

  /** While a call for `target` blocks, an exited child with pid `q` that is still in the table has the flag up. */
  ghost predicate Promises(target: Target, q: nat) {
    forall s, id :: BlockedBeside(s, id, target, q) ==> FlagSet(s)
  }

  ghost predicate BlockedBeside(s: State, id: nat, target: Target, q: nat) {
    && Reachable(s, false) && s.phase.Blocked? && s.call == target
    && HasExited(s, id) && s.procs[id].mine && s.procs[id].pid == q && StillNamed(s, id)
  }

  /** The flag stands for the children the call waits for, and for no others. */
  lemma FlagPromisedIff(target: Target, q: nat)
    ensures Promises(target, q) <==> target == AnyChild || target == OnePid(q)
  {
    hide Reachable;
    if target == AnyChild || target == OnePid(q) {
      forall s, id | BlockedBeside(s, id, target, q) ensures FlagSet(s) {
        FindableIff(s, id);
        assert s.(call := s.call) == s;
        NoLostWakeup(s, id);
      }
    } else {
      var s := OtherChildForgotten(target.pid, q);
      assert BlockedBeside(s, 1, target, q);
    }
  }

  /** An exited process of another parent is returned to whoever asks for its pid. */
  lemma StrangerReturned(p: nat) returns (s: State)
    ensures Reachable(s, false) && s.phase.Found? && s.call == OnePid(p)
    ensures s.phase.id < |s.procs| && !s.procs[s.phase.id].mine && s.phase.id !in s.children
  {
    hide Reachable;
    var s0 := Begin(false);
    var s1 := Go(s0, Fork(false, p), false);
    assert s1 == State([Live(p, false)], map[p := 0], [], QUIET, AnyChild, Idle, 0, multiset{}, multiset{}, []);
    var s2 := Exit(s1, 0, false);
    var s3 := Go(s2, Call(OnePid(p)), false);
    var s4 := Go(s3, ScanOne, false);
    s := Go(s4, LookOne, false);
  }

  /** A child that another process has waited for by pid is returned to its parent as well. */
  lemma ReturnedTwice(p: nat) returns (s: State)
    ensures Reachable(s, false) && s.phase.Found? && s.call == AnyChild
    ensures Returned(s, s.phase.id) && s.phase.id in s.children
  {
    hide Reachable, EB.Changed;
    var s1 := OneZombie(p);
    var s2 := ForeignWait(s1, 0);
    var s3 := Go(s2, Call(AnyChild), false);
    var s4 := Go(s3, ScanOne, false);
    s := Go(s4, LookOne, false);
    assert s.given[0] in s.given;
  }

  lemma PutAndTake(m: multiset<nat>, id: nat)
    ensures m + multiset{id} - multiset{id} == m
  {
  }

  /** Another process waits for the process `id` from beginning to end. */
  lemma ForeignWait(s: State, id: nat) returns (s': State)
    requires Reachable(s, false) && InTable(s, id) && HasExited(s, id) && !s.procs[id].dropped
    ensures Reachable(s', false)
    ensures s' == s.(table := s.table - {s.procs[id].pid}, given := s.given + [Return(id, |s.procs|, false)])
  {
    hide Reachable;
    PutAndTake(s.held, id);
    PutAndTake(s.found, id);
    var s1 := Go(s, ForeignLook(id), false);
    assert s1 == s.(held := s.held + multiset{id});
    var s2 := Go(s1, ForeignFind(id), false);
    assert s2 == s.(found := s.found + multiset{id});
    s' := Go(s2, ForeignReturn(id), false);
  }

  lemma OneZombie(p: nat) returns (s: State)
    ensures Reachable(s, false)
    ensures s == State([Zombie(p, true)], map[p := 0], [0], EB.Changed(QUIET, 0, EB.CHILD_PROCESS_QUIT),
                       AnyChild, Idle, 0, multiset{}, multiset{}, [])
  {
    hide Reachable, EB.Changed;
    var s0 := Begin(false);
    var s1 := Go(s0, Fork(true, p), false);
    assert s1 == State([Live(p, true)], map[p := 0], [0], QUIET, AnyChild, Idle, 0, multiset{}, multiset{}, []);
    s := Exit(s1, 0, false);
  }

  /** A pid given out again before the parent has waited: the exit of its first owner is lost. */
  lemma ReuseLosesExit(p: nat) returns (s: State)
    ensures Reachable(s, false) && |s.procs| == 2 && s.procs[0].pid == p && s.procs[1].pid == p
    ensures s.procs[0].mine && s.procs[0].exited && s.procs[0].dropped && s.given == []
  {
    hide Reachable, EB.Changed;
    var s2 := ReusedPid(p);
    s := Go(s2, Drop(0), false);
  }

  /** A child that has exited, and a second one with the same pid. */
  lemma ReusedPid(p: nat) returns (s: State)
    ensures Reachable(s, false)
    ensures s == State([Zombie(p, true), Live(p, true)], map[p := 1], [0, 1], EB.Changed(QUIET, 0, EB.CHILD_PROCESS_QUIT),
                       AnyChild, Idle, 0, multiset{}, multiset{}, [])
  {
    hide Reachable, EB.Changed;
    var s1 := OneZombie(p);
    s := Go(s1, Fork(true, p), false);
  }

  /** The return of its pid's first owner takes a live child with it: nobody can wait for that child any more. */
  lemma LiveChildLost(p: nat) returns (s: State)
    ensures Reachable(s, false) && |s.procs| == 2 && s.procs[1] == Live(p, true)
    ensures s.given == [Return(0, 2, true)] && 1 !in s.children && p !in s.table
  {
    hide Reachable, EB.Changed;
    var s2 := ReusedPid(p);
    var s3 := Go(s2, Call(AnyChild), false);
    var s4 := Go(s3, ScanOne, false);
    var s5 := Go(s4, LookOne, false);
    s := Go(s5, Reap, false);
    RetainedMember(s5.procs, s5.children, p, 1);
  }

  /** So does the return to another process, which looks and removes at different times. */
  lemma LiveChildLostToOther(p: nat) returns (s: State)
    ensures Reachable(s, false) && |s.procs| == 2 && s.procs[1] == Live(p, true)
    ensures s.given == [Return(0, 2, false)] && 1 in s.children && p !in s.table
  {
    hide Reachable, EB.Changed;
    var s1 := OneZombie(p);
    var s2 := Go(s1, ForeignLook(0), false);
    var s3 := Go(s2, ForeignFind(0), false);
    var s4 := Go(s3, Fork(true, p), false);
    assert s4.procs == [Zombie(p, true), Live(p, true)] && s4.table == map[p := 1] && s4.children == [0, 1];
    s := Go(s4, ForeignReturn(0), false);
    assert 1 == s.children[1];
  }

  /** Once nobody holds a process, no scan ever comes upon it again. */
  lemma LostForGood(s: State, step: Step, id: nat)
    requires Reachable(s, false) && Enabled(s, step, false) && id < |s.procs| && s.procs[id].dropped
    ensures var s' := Next(s, step, false);
            && id < |s'.procs| && s'.procs[id].dropped && !InHand(s'.phase, id) && !Findable(s', id)
            && (s'.phase == Found(id) ==> s.phase == Found(id))
  {
    hide Reachable;
    ReachableOk(s);
    if IsWaiterStep(step) {
      hide EB.Changed, EB.Polled, Retained, NoneToAwait, SeenOk, BookAt, ReturnsOk, HoldsOk, BusOk;
    } else if !step.Fork? {
      hide Enabled, Next, SeenOk, BookAt, ReturnsOk, HoldsOk, BusOk;
      OthersKeepView(s, step, false);
    }
  }

  /** Clearing the flag between the scan and the wait can leave the parent blocked for good. */
  lemma LateClearLosesWakeup(p: nat) returns (s: State)
    ensures Reachable(s, true) && s.phase.Blocked? && s.call == OnePid(p)
    ensures Findable(s, 0) && HasExited(s, 0) && !FlagSet(s) && s.bus.woken == []
  {
    hide Reachable, EB.Changed, EB.Intersects, EB.Polled;
    RaiseAndClear();
    var s1 := OneChildAwaited(p);
    var s2 := Exit(s1, 0, true);
    var s3 := Go(s2, ClearFlag, true);
    assert s3 == s2.(bus := QUIET);
    s := Go(s3, PollBus, true);
    PollWakesNobody();
  }

  lemma PollWakesNobody()
    ensures EB.Polled(QUIET, EB.CHILD_PROCESS_QUIT, 0).woken == [] && EB.Polled(QUIET, EB.CHILD_PROCESS_QUIT, 0).event == 0
  {
  }

  /** A parent that has scanned for its one child in vain and is about to wait. */
  lemma OneChildAwaited(p: nat) returns (s: State)
    ensures Reachable(s, true)
    ensures s == State([Live(p, true)], map[p := 0], [0], QUIET, OnePid(p), Waiting, 0, multiset{}, multiset{}, [])
  {
    hide Reachable;
    var s0 := Begin(true);
    var s1 := Go(s0, Fork(true, p), true);
    assert s1 == State([Live(p, true)], map[p := 0], [0], QUIET, AnyChild, Idle, 0, multiset{}, multiset{}, []);
    var s2 := Go(s1, Call(OnePid(p)), true);
    s := FruitlessScan(s2, true);
  }
}
