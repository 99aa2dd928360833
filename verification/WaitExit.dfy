/**
 A parent in `sys_wait4` among exiting processes, as a state machine. The waiter holds its own
 process lock from the start of a scan until it returns or gives up; an exiting process holds its own
 lock from before it raises its parent's flag until its thread list is empty. Pids name entries of
 the process table; processes themselves are numbered, because a pid can be given out again.
 */
module WaitExit {
  import opened Machine
  import opened EventBus

  /** What the call waits for: any child (-1 and 0 are the same code), or one pid. */
  datatype Target = AnyChild | OnePid(pid: nat)

  /**
   `mine`: the waiter is the parent. `exited`: no thread left. `locked`: an exit is under way.
   `notified`: that exit has raised the flag. `dropped`: nobody holds the process any more.
   */
  datatype Proc = Proc(pid: nat, mine: bool, exited: bool, locked: bool, notified: bool, dropped: bool)

  /**
   Where the waiter is: the scan has dealt with `next` candidates; `Looking` has one more in hand;
   `Blocked` remembers the waker left on the bus.
   */
  datatype Phase =
    | Idle
    | Scanning(next: nat)
    | Looking(id: nat, next: nat)
    | Found(id: nat)
    | Waiting
    | Blocked(waker: nat)
    | Awake
    | Cleared

  /** A process given to a waiter, this one (`mine`) or another, when `made` processes had been made. */
  datatype Return = Return(id: nat, made: nat, mine: bool)

  /**
   All processes ever made, the process table, the waiter's `children`, event bus, call and phase;
   the processes other waiters have `held` but not looked at, those they have `found` exited but not
   yet removed; and all returns so far.
   */
  datatype State = State(
    procs: seq<Proc>, table: map<nat, nat>, children: seq<nat>, bus: Bus, call: Target, phase: Phase, polls: nat,
    held: multiset<nat>, found: multiset<nat>, given: seq<Return>)

  datatype Step =
    | Fork(mine: bool, pid: nat)
    | ExitBegin(id: nat, lastThread: bool)
    | ExitNotify(id: nat)
    | ExitEnd(id: nat)
    | OtherEvent(set_: Event)
    | ForeignLook(id: nat)
    | ForeignFind(id: nat)
    | ForeignReturn(id: nat)
    | Drop(id: nat)
    | Call(target: Target)
    | Rescan
    | ScanOne
    | LookOne
    | ScanEnd
    | Reap
    | PollBus
    | ClearFlag

  predicate Init(s: State) {
    s == State([], map[], [], Bus(0, [], []), AnyChild, Idle, 0, multiset{}, multiset{}, [])
  }

  predicate FlagSet(s: State) {
    Intersects(s.bus.event, CHILD_PROCESS_QUIT)
  }

  /** The exit of a process as others see it: they take its lock to look. */
  predicate HasExited(s: State, id: nat) {
    id < |s.procs| && s.procs[id].exited && !s.procs[id].locked
  }

  predicate InTable(s: State, id: nat) {
    id < |s.procs| && s.procs[id].pid in s.table && s.table[s.procs[id].pid] == id
  }

  /** The waiter holds its process lock. */
  predicate HoldsLock(phase: Phase) {
    phase.Scanning? || phase.Looking? || phase.Found?
  }

  /** The scan holds the process; once it has its pid and exit code, it lets it go. */
  predicate InHand(phase: Phase, id: nat) {
    phase.Looking? && phase.id == id
  }

  /** `children.retain(|(p, _)| *p != pid)` */
  function Retained(procs: seq<Proc>, children: seq<nat>, pid: nat): seq<nat> {
    if children == [] then []
    else
      var n := |children| - 1;
      Retained(procs, children[..n], pid)
      + if children[n] < |procs| && procs[children[n]].pid == pid then [] else [children[n]]
  }

  /** The call would fail with ECHILD: no child, or none with that pid, is still there. */
  ghost predicate NoneToAwait(s: State) {
    forall i :: 0 <= i < |s.children| && s.children[i] < |s.procs| && !s.procs[s.children[i]].dropped ==>
      s.call.OnePid? && s.procs[s.children[i]].pid != s.call.pid
  }

  /** `lateClear`: the flag is cleared after the scan instead of before it. */
  ghost predicate Enabled(s: State, step: Step, lateClear: bool) {
    match step
    case Fork(mine, pid) =>
      && (forall i :: 0 <= i < |s.procs| && s.procs[i].pid == pid ==> s.procs[i].exited || s.procs[i].locked)
      && (mine ==> !HoldsLock(s.phase))
    case ExitBegin(id, _) => id < |s.procs| && !s.procs[id].locked && !s.procs[id].dropped
    case ExitNotify(id) =>
      && id < |s.procs| && s.procs[id].locked && !s.procs[id].notified
      && (s.procs[id].mine ==> !HoldsLock(s.phase))
    case ExitEnd(id) => id < |s.procs| && s.procs[id].locked && s.procs[id].notified
    case OtherEvent(_) => true
    case ForeignLook(id) => id < |s.procs| && !s.procs[id].dropped && (InTable(s, id) || !s.procs[id].mine)
    case ForeignFind(id) => id in s.held && id < |s.procs| && !s.procs[id].locked
    case ForeignReturn(id) => id in s.found && id < |s.procs|
    case Drop(id) => HasExited(s, id) && !InTable(s, id) && !InHand(s.phase, id) && id !in s.held
    case Call(_) => s.phase.Idle?
    case Rescan => s.phase.Cleared?
    case ScanOne =>
      && s.phase.Scanning?
      && s.phase.next < match s.call { case AnyChild => |s.children| case OnePid(_) => 1 }
    case LookOne => s.phase.Looking? && s.phase.id < |s.procs| && !s.procs[s.phase.id].locked
    case ScanEnd =>
      && s.phase.Scanning?
      && s.phase.next == match s.call { case AnyChild => |s.children| case OnePid(_) => 1 }
    case Reap => s.phase.Found? && s.phase.id < |s.procs|
    case PollBus => s.phase.Waiting? || s.phase.Blocked?
    case ClearFlag => if lateClear then s.phase.Waiting? else s.phase.Awake?
  }

  /** What the scan takes in hand next, if it is still there. */
  function Candidate(s: State): Option<nat>
    requires s.phase.Scanning? && (s.call.AnyChild? ==> s.phase.next < |s.children|)
  {
    match s.call
    case AnyChild =>
      var id := s.children[s.phase.next];
      if id < |s.procs| && !s.procs[id].dropped then Some(id) else None
    case OnePid(pid) => if pid in s.table then Some(s.table[pid]) else None
  }

  ghost function Next(s: State, step: Step, lateClear: bool): State
    requires Enabled(s, step, lateClear)
  {
    match step
    case Fork(mine, pid) =>
      var id := |s.procs|;
      s.(procs := s.procs + [Proc(pid, mine, false, false, false, false)], table := s.table[pid := id],
         children := if mine then s.children + [id] else s.children)
    case ExitBegin(id, lastThread) =>
      var p := s.procs[id];
      s.(procs := s.procs[id := p.(exited := p.exited || lastThread, locked := true, notified := false)])
    case ExitNotify(id) =>
      s.(procs := s.procs[id := s.procs[id].(notified := true)],
         bus := if s.procs[id].mine then Changed(s.bus, 0, CHILD_PROCESS_QUIT) else s.bus)
    case ExitEnd(id) => s.(procs := s.procs[id := s.procs[id].(exited := true, locked := false)])
    case OtherEvent(set_) => s.(bus := Changed(s.bus, 0, set_))
    case ForeignLook(id) => s.(held := s.held + multiset{id})
    case ForeignFind(id) =>
      s.(held := s.held - multiset{id}, found := if s.procs[id].exited then s.found + multiset{id} else s.found)
    case ForeignReturn(id) =>
      s.(found := s.found - multiset{id}, table := s.table - {s.procs[id].pid},
         given := s.given + [Return(id, |s.procs|, false)])
    case Drop(id) => s.(procs := s.procs[id := s.procs[id].(dropped := true)])
    case Call(target) => s.(call := target, phase := Scanning(0))
    case Rescan => s.(phase := Scanning(0))
    case ScanOne =>
      var n := s.phase.next + 1;
      s.(phase := match Candidate(s) case None => Scanning(n) case Some(id) => Looking(id, n))
    case LookOne => s.(phase := if s.procs[s.phase.id].exited then Found(s.phase.id) else Scanning(s.phase.next))
    case ScanEnd => s.(phase := if NoneToAwait(s) then Idle else Waiting)
    case Reap =>
      var id := s.phase.id;
      var pid := s.procs[id].pid;
      s.(table := s.table - {pid}, children := Retained(s.procs, s.children, pid), phase := Idle,
         given := s.given + [Return(id, |s.procs|, true)])
    case PollBus =>
      s.(bus := Polled(s.bus, CHILD_PROCESS_QUIT, s.polls), polls := s.polls + 1,
         phase := if FlagSet(s) then Awake else Blocked(s.polls))
    case ClearFlag =>
      s.(bus := Changed(s.bus, CHILD_PROCESS_QUIT, 0), phase := if lateClear then Waiting else Cleared)
  }

  // ---------------------------------------------------------------------- the invariant

  /** Table entries name processes with that pid that are still there; children are the waiter's own. */
  ghost predicate NamesOk(s: State) {
    && (forall p :: p in s.table ==>
          s.table[p] < |s.procs| && s.procs[s.table[p]].pid == p && !s.procs[s.table[p]].dropped)
    && (forall i :: 0 <= i < |s.children| ==> s.children[i] < |s.procs| && s.procs[s.children[i]].mine)
  }

  predicate SamePid(s: State, i: nat, j: nat) {
    i < |s.procs| && j < |s.procs| && s.procs[i].pid == s.procs[j].pid
  }

  /** A process with the same pid was made after `id`. */
  predicate GivenOutAgain(s: State, id: nat) {
    exists j :: id < j < |s.procs| && SamePid(s, j, id)
  }

  /** A process with the same pid, `id` itself or an earlier one, was returned after `id` was made. */
  predicate ReturnedSince(s: State, id: nat, byMe: bool) {
    exists k :: 0 <= k < |s.given| && Counts(s, s.given[k], id, byMe)
  }

  predicate Counts(s: State, r: Return, id: nat, byMe: bool) {
    SamePid(s, r.id, id) && id < r.made && (byMe ==> r.mine)
  }

  /** Neither has happened since `id` was made. */
  predicate StillNamed(s: State, id: nat) {
    !GivenOutAgain(s, id) && !ReturnedSince(s, id, false)
  }

  /**
   The table names a process until its pid is given out again or somebody is given a process with its
   pid; a child stays among the children until the waiter is given one with its pid.
   */
  predicate BookAt(s: State, id: nat) {
    id < |s.procs| ==>
      && (InTable(s, id) <==> StillNamed(s, id))
      && (s.procs[id].mine ==> (id in s.children <==> !ReturnedSince(s, id, true)))
  }

  predicate ReturnOk(s: State, r: Return) {
    r.id < |s.procs| && r.id < r.made <= |s.procs|
  }

  predicate GivenToMe(s: State, id: nat) {
    exists r :: r in s.given && r.mine && r.id == id
  }

  /** No process is returned to the waiter twice. */
  ghost predicate ReturnsOk(s: State) {
    && (forall k :: 0 <= k < |s.given| ==> ReturnOk(s, s.given[k]))
    && (forall i, j :: 0 <= i < j < |s.given| && s.given[i].mine && s.given[j].mine ==> s.given[i].id != s.given[j].id)
  }

  /** Other waiters hold processes that are still there, and have found exited ones. */
  ghost predicate HoldsOk(s: State) {
    && (forall id :: id in s.held ==> id < |s.procs| && !s.procs[id].dropped)
    && (forall id :: id in s.found ==> id < |s.procs| && s.procs[id].exited)
  }

  ghost predicate BooksOk(s: State) {
    ReturnsOk(s) && HoldsOk(s) && forall id: nat :: BookAt(s, id)
  }

  ghost predicate HandOk(s: State, id: nat) {
    && id < |s.procs| && !GivenToMe(s, id) && (s.procs[id].mine ==> id in s.children)
    && match s.call
       case AnyChild => id in s.children
       case OnePid(pid) => s.procs[id].pid == pid
  }

  /** What the scan has in hand is a candidate; a waiter that waits has somebody to wait for. */
  ghost predicate PhaseOk(s: State) {
    match s.phase
    case Scanning(next) => next <= if s.call.AnyChild? then |s.children| else 1
    case Looking(id, next) => HandOk(s, id) && !s.procs[id].dropped && PlaceOk(s, id, next)
    case Found(id) => HandOk(s, id) && s.procs[id].exited
    case Waiting => SomeAwaited(s)
    case Blocked(_) => SomeAwaited(s)
    case _ => true
  }

  /** The candidate in hand is the last one counted; a pid that now names another names a stranger. */
  predicate PlaceOk(s: State, id: nat, next: nat) {
    match s.call
    case AnyChild => 1 <= next <= |s.children| && s.children[next - 1] == id
    case OnePid(pid) => next == 1 && (pid in s.table && s.table[pid] != id ==> IsStranger(s, s.table[pid]))
  }

  predicate IsStranger(s: State, id: nat) {
    id < |s.procs| && !s.procs[id].mine
  }

  ghost predicate SomeAwaited(s: State) {
    exists i :: 0 <= i < |s.children| && s.children[i] < |s.procs|
             && (s.call.OnePid? ==> s.procs[s.children[i]].pid == s.call.pid)
  }

  /** A child of the waiter that a scan of this call would come upon. */
  ghost predicate Findable(s: State, id: nat) {
    && id < |s.procs| && s.procs[id].mine && !s.procs[id].dropped
    && match s.call
       case AnyChild => id in s.children
       case OnePid(pid) => pid in s.table && s.table[pid] == id
  }

  /** The scan of this round has seen the process alive, or it was forked after that scan. */
  ghost predicate Seen(s: State, id: nat) {
    match s.phase
    case Scanning(next) =>
      if s.call.AnyChild? then next <= |s.children| && id in s.children[..next] else next >= 1 && Findable(s, id)
    case Looking(_, next) => s.call.AnyChild? && 1 <= next <= |s.children| && id in s.children[..next - 1]
    case Waiting => Findable(s, id)
    case Blocked(_) => Findable(s, id)
    case _ => false
  }

  /** The exit has raised the flag, or is over. */
  predicate PastNotify(p: Proc) {
    if p.locked then p.notified else p.exited
  }

  /** A process seen alive cannot get past raising the flag without the flag being up. */
  ghost predicate SeenOk(s: State, id: nat) {
    id < |s.procs| && Seen(s, id) && !s.procs[id].dropped && PastNotify(s.procs[id]) ==> FlagSet(s)
  }

  /** A blocked waiter's callback is still on the bus, or has been called. */
  ghost predicate BlockedOk(s: State) {
    s.phase.Blocked? ==> Masked(CHILD_PROCESS_QUIT, s.phase.waker) in s.bus.callbacks || s.phase.waker in s.bus.woken
  }

  ghost predicate BusOk(s: State) {
    Quiet(s.bus) && BlockedOk(s)
  }

  ghost predicate Inv(s: State) {
    NamesOk(s) && BooksOk(s) && PhaseOk(s) && BusOk(s) && forall id: nat :: SeenOk(s, id)
  }

  // ------------------------------------------------------------------- children that stay

  lemma {:induction false} RetainedMember(procs: seq<Proc>, children: seq<nat>, pid: nat, id: nat)
    ensures id in Retained(procs, children, pid) <==> id in children && !(id < |procs| && procs[id].pid == pid)
  {
    if children != [] {
      var n := |children| - 1;
      RetainedMember(procs, children[..n], pid, id);
      assert children == children[..n] + [children[n]];
    }
  }

  // ---------------------------------------------------------------- each step keeps it

  // --------------------------------------------------------------- steps of other processes

  /** Steps of the waiter itself; all others leave its phase and call alone. */
  predicate IsWaiterStep(step: Step) {
    || step.Call? || step.Rescan? || step.ScanOne? || step.LookOne?
    || step.ScanEnd? || step.Reap? || step.PollBus? || step.ClearFlag?
  }

  /** Steps by which a process exits or is freed. */
  predicate IsExitStep(step: Step) {
    step.ExitBegin? || step.ExitNotify? || step.ExitEnd? || step.Drop?
  }

  /**
   The waiter is where it was, the table names no process that it did not name, what the waiter holds
   is still there, and nothing more was returned to the waiter.
   */
  ghost predicate SameView(s: State, s': State) {
    && s'.phase == s.phase && s'.call == s.call && s'.children == s.children && |s'.procs| == |s.procs|
    && (forall p :: p in s'.table ==> p in s.table && s'.table[p] == s.table[p])
    && (forall i :: 0 <= i < |s.procs| ==> GrownFrom(s.procs[i], s'.procs[i]))
    && (forall i :: 0 <= i < |s.procs| && s'.procs[i].dropped && !s.procs[i].dropped ==> Droppable(s, i))
    && (forall r :: r in s'.given && r.mine ==> r in s.given)
  }

  predicate GrownFrom(p: Proc, p': Proc) {
    p'.pid == p.pid && p'.mine == p.mine && (p.exited ==> p'.exited) && (p.dropped ==> p'.dropped)
  }

  predicate Droppable(s: State, id: nat) {
    !InTable(s, id) && !InHand(s.phase, id) && id !in s.held
  }

  lemma OthersKeepView(s: State, step: Step, late: bool)
    requires Enabled(s, step, late) && !IsWaiterStep(step) && !step.Fork?
    ensures SameView(s, Next(s, step, late))
  {
    hide Enabled, Next, SameView, IsWaiterStep;
    if IsExitStep(step) {
      ExitKeepsView(s, step, late);
    } else {
      ForeignKeepsView(s, step, late);
    }
  }

  lemma ExitKeepsView(s: State, step: Step, late: bool)
    requires Enabled(s, step, late) && IsExitStep(step)
    ensures var s' := Next(s, step, late);
            SameView(s, s') && s'.table == s.table && s'.held == s.held && s'.found == s.found && s'.given == s.given
  {
    hide Changed;
  }

  lemma ForeignKeepsView(s: State, step: Step, late: bool)
    requires Enabled(s, step, late) && !IsWaiterStep(step) && !IsExitStep(step) && !step.Fork?
    ensures SameView(s, Next(s, step, late)) && Next(s, step, late).procs == s.procs
  {
    hide Changed, InTable;
  }

  // ---------------------------------------------------------------------------- names

  lemma StepKeepsNames(s: State, step: Step, late: bool)
    requires NamesOk(s) && Enabled(s, step, late)
    ensures NamesOk(Next(s, step, late))
  {
    var s' := Next(s, step, late);
    if step.Reap? {
      hide Retained;
      forall i | 0 <= i < |s'.children| ensures s'.children[i] < |s.procs| && s.procs[s'.children[i]].mine {
        RetainedMember(s.procs, s.children, s.procs[s.phase.id].pid, s'.children[i]);
      }
    } else if IsWaiterStep(step) {
      hide Enabled, Next;
      ProcsKept(s, step, late);
    } else if !step.Fork? {
      hide Enabled, Next, SameView, NamesOk;
      OthersKeepView(s, step, late);
      ViewKeepsNames(s, s');
    }
  }

  lemma ViewKeepsNames(s: State, s': State)
    requires NamesOk(s) && SameView(s, s')
    ensures NamesOk(s')
  {
    forall p | p in s'.table ensures !s'.procs[s'.table[p]].dropped {
      assert InTable(s, s.table[p]);
    }
  }

  lemma StepKeepsBooks(s: State, step: Step, late: bool)
    requires NamesOk(s) && BooksOk(s) && PhaseOk(s) && Enabled(s, step, late)
    ensures BooksOk(Next(s, step, late))
  {
    hide Enabled, Next, BookAt, ReturnsOk, HoldsOk, NamesOk, PhaseOk;
    var s' := Next(s, step, late);
    forall id: nat ensures BookAt(s', id) {
      StepKeepsBook(s, step, late, id);
    }
    StepKeepsReturns(s, step, late);
    StepKeepsHolds(s, step, late);
  }

  lemma StepKeepsBook(s: State, step: Step, late: bool, id: nat)
    requires NamesOk(s) && BooksOk(s) && PhaseOk(s) && Enabled(s, step, late)
    ensures BookAt(Next(s, step, late), id)
  {
    hide Enabled, Next, PhaseOk, NamesOk, ReturnsOk;
    assert BookAt(s, id);
    match step {
      case Reap => ReapKeepsBook(s, late, id);
      case ForeignReturn(j) => ForeignReturnKeepsBook(s, j, late, id);
      case Fork(mine, pid) => ForkKeepsBook(s, mine, pid, late, id);
      case _ => OthersKeepBook(s, step, late, id);
    }
  }

  /** What names and returns have to do with: pids, table, children and returns. */
  predicate SameBooks(s: State, s': State) {
    && |s'.procs| == |s.procs| && s'.table == s.table && s'.children == s.children && s'.given == s.given
    && forall i :: 0 <= i < |s.procs| ==> s'.procs[i].pid == s.procs[i].pid && s'.procs[i].mine == s.procs[i].mine
  }

  lemma OthersKeepBook(s: State, step: Step, late: bool, id: nat)
    requires BookAt(s, id) && Enabled(s, step, late) && !step.Reap? && !step.ForeignReturn? && !step.Fork?
    ensures BookAt(Next(s, step, late), id)
  {
    hide Enabled, Next, BookAt;
    var s' := Next(s, step, late);
    if IsExitStep(step) {
      ExitKeepsView(s, step, late);
    } else {
      ProcsKept(s, step, late);
    }
    assert SameBooks(s, s');
    SameBooksSameBook(s, s', id);
  }

  lemma ProcsKept(s: State, step: Step, late: bool)
    requires Enabled(s, step, late) && !step.Reap? && !step.ForeignReturn? && !step.Fork? && !IsExitStep(step)
    ensures var s' := Next(s, step, late);
            s'.procs == s.procs && s'.table == s.table && s'.children == s.children && s'.given == s.given
  {
    hide Changed, Polled, Intersects, NoneToAwait, Candidate, InTable;
  }

  lemma SameBooksSameBook(s: State, s': State, id: nat)
    requires SameBooks(s, s') && BookAt(s, id)
    ensures BookAt(s', id)
  {
    if id < |s.procs| {
      SameHistory(s, s', id);
    }
  }

  lemma SameHistory(s: State, s': State, id: nat)
    requires SameBooks(s, s')
    ensures GivenOutAgain(s', id) <==> GivenOutAgain(s, id)
    ensures forall byMe :: ReturnedSince(s', id, byMe) <==> ReturnedSince(s, id, byMe)
  {
    assert forall i: nat, j: nat :: SamePid(s', i, j) <==> SamePid(s, i, j);
    assert forall r, byMe :: Counts(s', r, id, byMe) <==> Counts(s, r, id, byMe);
  }

  /** A return is the last word on its pid so far. */
  lemma ReturnHistory(s: State, s': State, id: nat, r: Return, byMe: bool)
    requires s'.procs == s.procs && s'.given == s.given + [r] && r.made == |s.procs| && id < |s.procs|
    ensures GivenOutAgain(s', id) <==> GivenOutAgain(s, id)
    ensures ReturnedSince(s', id, byMe) <==> ReturnedSince(s, id, byMe) || (SamePid(s, r.id, id) && (byMe ==> r.mine))
  {
    assert forall i: nat, j: nat :: SamePid(s', i, j) <==> SamePid(s, i, j);
    assert forall q :: Counts(s', q, id, byMe) <==> Counts(s, q, id, byMe);
    if ReturnedSince(s, id, byMe) {
      var k :| 0 <= k < |s.given| && Counts(s, s.given[k], id, byMe);
      assert Counts(s', s'.given[k], id, byMe);
    }
    if SamePid(s, r.id, id) && (byMe ==> r.mine) {
      assert Counts(s', s'.given[|s.given|], id, byMe);
    }
    if k :| 0 <= k < |s'.given| && Counts(s', s'.given[k], id, byMe) && k < |s.given| {
      assert Counts(s, s.given[k], id, byMe);
    }
  }

  lemma ReapKeepsBook(s: State, late: bool, id: nat)
    requires NamesOk(s) && BookAt(s, id) && Enabled(s, Reap, late)
    ensures BookAt(Next(s, Reap, late), id)
  {
    hide Retained, GivenOutAgain, ReturnedSince, HoldsLock;
    if id < |s.procs| {
      var s' := Next(s, Reap, late);
      RetainedMember(s.procs, s.children, s.procs[s.phase.id].pid, id);
      ReturnHistory(s, s', id, Return(s.phase.id, |s.procs|, true), true);
      ReturnHistory(s, s', id, Return(s.phase.id, |s.procs|, true), false);
    }
  }

  lemma ForeignReturnKeepsBook(s: State, j: nat, late: bool, id: nat)
    requires NamesOk(s) && BookAt(s, id) && Enabled(s, ForeignReturn(j), late)
    ensures BookAt(Next(s, ForeignReturn(j), late), id)
  {
    hide GivenOutAgain, ReturnedSince;
    if id < |s.procs| {
      var s' := Next(s, ForeignReturn(j), late);
      ReturnHistory(s, s', id, Return(j, |s.procs|, false), true);
      ReturnHistory(s, s', id, Return(j, |s.procs|, false), false);
    }
  }

  /** A new process is the last word on its pid, and changes nothing for the others'. */
  lemma ForkHistory(s: State, s': State, p: Proc, id: nat)
    requires s'.procs == s.procs + [p] && s'.given == s.given && ReturnsOk(s) && id <= |s.procs|
    ensures id < |s.procs| ==> (GivenOutAgain(s', id) <==> GivenOutAgain(s, id) || s.procs[id].pid == p.pid)
    ensures id < |s.procs| ==> forall byMe :: ReturnedSince(s', id, byMe) <==> ReturnedSince(s, id, byMe)
    ensures id == |s.procs| ==> !GivenOutAgain(s', id) && forall byMe :: !ReturnedSince(s', id, byMe)
  {
    if id < |s.procs| {
      assert forall i: nat :: i < |s.procs| ==> (SamePid(s', i, id) <==> SamePid(s, i, id));
      assert SamePid(s', |s.procs|, id) <==> s.procs[id].pid == p.pid;
      assert forall k, byMe :: 0 <= k < |s.given| ==>
        ReturnOk(s, s.given[k]) && (Counts(s', s.given[k], id, byMe) <==> Counts(s, s.given[k], id, byMe));
    } else {
      assert forall k :: 0 <= k < |s.given| ==> ReturnOk(s, s.given[k]);
    }
  }

  lemma ForkKeepsBook(s: State, mine: bool, pid: nat, late: bool, id: nat)
    requires NamesOk(s) && BookAt(s, id) && Enabled(s, Fork(mine, pid), late) && ReturnsOk(s)
    ensures BookAt(Next(s, Fork(mine, pid), late), id)
  {
    hide GivenOutAgain, ReturnedSince, ReturnsOk;
    if id <= |s.procs| {
      ForkHistory(s, Next(s, Fork(mine, pid), late), Proc(pid, mine, false, false, false, false), id);
    }
  }

  lemma StepKeepsReturns(s: State, step: Step, late: bool)
    requires ReturnsOk(s) && PhaseOk(s) && Enabled(s, step, late)
    ensures ReturnsOk(Next(s, step, late))
  {
    hide ReturnsOk;
    var s' := Next(s, step, late);
    assert |s.procs| <= |s'.procs| by {
      hide Changed, Polled, Intersects, Retained, NoneToAwait, Candidate, PhaseOk;
    }
    match step {
      case Reap => OneMoreReturn(s, s', Return(s.phase.id, |s.procs|, true));
      case ForeignReturn(id) => OneMoreReturn(s, s', Return(id, |s.procs|, false));
      case _ =>
        assert s'.given == s.given by {
          hide Changed, Polled, Intersects, NoneToAwait, Candidate, PhaseOk;
        }
        SameReturns(s, s');
    }
  }

  lemma SameReturns(s: State, s': State)
    requires ReturnsOk(s) && s'.given == s.given && |s.procs| <= |s'.procs|
    ensures ReturnsOk(s')
  {
    forall k | 0 <= k < |s.given| ensures ReturnOk(s', s.given[k]) {
      assert ReturnOk(s, s.given[k]);
    }
  }

  lemma OneMoreReturn(s: State, s': State, r: Return)
    requires ReturnsOk(s) && s'.given == s.given + [r] && |s'.procs| == |s.procs|
    requires ReturnOk(s, r) && (r.mine ==> !GivenToMe(s, r.id))
    ensures ReturnsOk(s')
  {
    forall k | 0 <= k < |s'.given| ensures ReturnOk(s', s'.given[k]) {
      assert k < |s.given| ==> ReturnOk(s, s.given[k]);
    }
    forall i | 0 <= i < |s.given| && s.given[i].mine && r.mine ensures s.given[i].id != r.id {
      assert s.given[i] in s.given;
    }
  }

  lemma StepKeepsHolds(s: State, step: Step, late: bool)
    requires HoldsOk(s) && Enabled(s, step, late)
    ensures HoldsOk(Next(s, step, late))
  {
    hide Enabled, Next, HoldsOk;
    if IsExitStep(step) {
      ExitKeepsView(s, step, late);
      ViewKeepsHolds(s, Next(s, step, late));
    } else if IsWaiterStep(step) {
      WaiterKeepsHolds(s, step, late);
    } else {
      ForeignKeepsHolds(s, step, late);
    }
  }

  lemma ViewKeepsHolds(s: State, s': State)
    requires HoldsOk(s) && SameView(s, s') && s'.held == s.held && s'.found == s.found
    ensures HoldsOk(s')
  {
  }

  lemma WaiterKeepsHolds(s: State, step: Step, late: bool)
    requires HoldsOk(s) && Enabled(s, step, late) && IsWaiterStep(step)
    ensures HoldsOk(Next(s, step, late))
  {
    hide HoldsOk;
    var s' := Next(s, step, late);
    assert s'.procs == s.procs && s'.held == s.held && s'.found == s.found by {
      hide Changed, Polled, Intersects, Retained, NoneToAwait, Candidate;
    }
    SameHolds(s, s');
  }

  lemma SameHolds(s: State, s': State)
    requires HoldsOk(s) && s'.procs == s.procs && s'.held == s.held && s'.found == s.found
    ensures HoldsOk(s')
  {
  }

  lemma ForeignKeepsHolds(s: State, step: Step, late: bool)
    requires HoldsOk(s) && Enabled(s, step, late) && !IsWaiterStep(step) && !IsExitStep(step)
    ensures HoldsOk(Next(s, step, late))
  {
    hide Changed, InTable, HoldsOk;
    var s' := Next(s, step, late);
    match step {
      case ForeignLook(id) => HeldToo(s, s', id);
      case ForeignFind(id) => FoundToo(s, s', id);
      case ForeignReturn(id) => FewerFound(s, s', id);
      case Fork(_, _) => MoreHolds(s, s');
      case OtherEvent(_) => SameHolds(s, s');
    }
  }

  lemma HeldToo(s: State, s': State, id: nat)
    requires HoldsOk(s) && s'.procs == s.procs && s'.found == s.found && s'.held == s.held + multiset{id}
    requires id < |s.procs| && !s.procs[id].dropped
    ensures HoldsOk(s')
  {
  }

  lemma FoundToo(s: State, s': State, id: nat)
    requires HoldsOk(s) && s'.procs == s.procs && s'.held == s.held - multiset{id} && id < |s.procs|
    requires s'.found == if s.procs[id].exited then s.found + multiset{id} else s.found
    ensures HoldsOk(s')
  {
  }

  lemma FewerFound(s: State, s': State, id: nat)
    requires HoldsOk(s) && s'.procs == s.procs && s'.held == s.held && s'.found == s.found - multiset{id}
    ensures HoldsOk(s')
  {
  }

  lemma MoreHolds(s: State, s': State)
    requires HoldsOk(s) && s.procs <= s'.procs && s'.held == s.held && s'.found == s.found
    ensures HoldsOk(s')
  {
  }

  /** What can be taken in hand has not been returned to the waiter. */
  lemma NotGivenYet(s: State, id: nat)
    requires BookAt(s, id) && ReturnsOk(s) && (InTable(s, id) || (id in s.children && id < |s.procs| && s.procs[id].mine))
    ensures !GivenToMe(s, id)
  {
    hide GivenToMe, ReturnedSince, ReturnsOk;
    if GivenToMe(s, id) {
      OwnReturnCounts(s, id);
    }
  }

  lemma OwnReturnCounts(s: State, id: nat)
    requires ReturnsOk(s) && id < |s.procs| && GivenToMe(s, id)
    ensures ReturnedSince(s, id, true) && ReturnedSince(s, id, false)
  {
    var r :| r in s.given && r.mine && r.id == id;
    var k :| 0 <= k < |s.given| && s.given[k] == r;
    assert ReturnOk(s, s.given[k]);
    assert Counts(s, s.given[k], id, true) && Counts(s, s.given[k], id, false);
  }

  lemma FreshInTable(s: State, id: nat)
    requires BookAt(s, id) && InTable(s, id)
    ensures s.procs[id].mine ==> id in s.children
  {
  }

  lemma StepKeepsPhase(s: State, step: Step, late: bool)
    requires NamesOk(s) && BooksOk(s) && PhaseOk(s) && Enabled(s, step, late)
    ensures PhaseOk(Next(s, step, late))
  {
    hide Enabled, Next, NamesOk, BooksOk, PhaseOk;
    if IsWaiterStep(step) {
      WaiterKeepsPhase(s, step, late);
    } else {
      OthersKeepPhase(s, step, late);
    }
  }

  lemma WaiterKeepsPhase(s: State, step: Step, late: bool)
    requires NamesOk(s) && BooksOk(s) && PhaseOk(s) && Enabled(s, step, late) && IsWaiterStep(step)
    ensures PhaseOk(Next(s, step, late))
  {
    hide Changed, Polled, Intersects, Retained, BookAt, ReturnsOk, HoldsOk;
    if step.ScanOne? {
      ScanKeepsPhase(s, late);
    }
  }

  /** What the scan takes in hand is a candidate. */
  lemma ScanKeepsPhase(s: State, late: bool)
    requires NamesOk(s) && BooksOk(s) && PhaseOk(s) && Enabled(s, ScanOne, late)
    ensures PhaseOk(Next(s, ScanOne, late))
  {
    hide BookAt, ReturnsOk, HoldsOk;
    if s.call.AnyChild? {
      assert s.children[s.phase.next] in s.children;
      NotGivenYet(s, s.children[s.phase.next]);
    } else if s.call.pid in s.table {
      NotGivenYet(s, s.table[s.call.pid]);
      FreshInTable(s, s.table[s.call.pid]);
    }
  }

  lemma OthersKeepPhase(s: State, step: Step, late: bool)
    requires NamesOk(s) && BooksOk(s) && PhaseOk(s) && Enabled(s, step, late) && !IsWaiterStep(step)
    ensures PhaseOk(Next(s, step, late))
  {
    hide Enabled, Next, NamesOk, BooksOk, PhaseOk, SameView;
    if step.Fork? {
      ForkKeepsPhase(s, step.mine, step.pid, late);
    } else {
      OthersKeepView(s, step, late);
      ViewKeepsPhase(s, Next(s, step, late));
    }
  }

  lemma ForkKeepsPhase(s: State, mine: bool, pid: nat, late: bool)
    requires NamesOk(s) && PhaseOk(s) && Enabled(s, Fork(mine, pid), late)
    ensures PhaseOk(Next(s, Fork(mine, pid), late))
  {
    hide SomeAwaited;
    if SomeAwaited(s) {
      MoreAwaited(s, Next(s, Fork(mine, pid), late));
    }
  }

  lemma ViewKeepsPhase(s: State, s': State)
    requires NamesOk(s) && PhaseOk(s) && SameView(s, s')
    ensures PhaseOk(s')
  {
    hide SomeAwaited;
    if SomeAwaited(s) {
      MoreAwaited(s, s');
    }
  }

  lemma MoreAwaited(s: State, s': State)
    requires SomeAwaited(s) && s'.call == s.call && s.children <= s'.children && |s.procs| <= |s'.procs|
    requires forall i :: 0 <= i < |s.procs| ==> s'.procs[i].pid == s.procs[i].pid
    ensures SomeAwaited(s')
  {
    var i :| 0 <= i < |s.children| && s.children[i] < |s.procs|
          && (s.call.OnePid? ==> s.procs[s.children[i]].pid == s.call.pid);
    assert s'.children[i] == s.children[i];
  }

  // --------------------------------------------------------------------- the event bus

  lemma FlagRaised(e: Event)
    ensures Intersects(NewEvent(e, 0, CHILD_PROCESS_QUIT), CHILD_PROCESS_QUIT)
  {
  }

  lemma FlagStays(e: Event, set_: Event)
    requires Intersects(e, CHILD_PROCESS_QUIT)
    ensures Intersects(NewEvent(e, 0, set_), CHILD_PROCESS_QUIT)
  {
  }

  lemma PolledEvent(bus: Bus, mask: Event, waker: nat)
    ensures Polled(bus, mask, waker).event == bus.event
  {
  }

  /** Only the waiter takes the flag down, and a child's exit raises it. */
  lemma FlagKept(s: State, step: Step, late: bool)
    requires Enabled(s, step, late)
    ensures FlagSet(s) && !step.ClearFlag? ==> FlagSet(Next(s, step, late))
    ensures step.ExitNotify? && s.procs[step.id].mine ==> FlagSet(Next(s, step, late))
  {
    hide Changed, Polled, Intersects, Retained, NoneToAwait, Candidate, NewEvent;
    match step {
      case OtherEvent(set_) =>
        ChangedWord(s.bus, 0, set_);
        if FlagSet(s) {
          FlagStays(s.bus.event, set_);
        }
      case ExitNotify(_) =>
        ChangedWord(s.bus, 0, CHILD_PROCESS_QUIT);
        FlagRaised(s.bus.event);
      case PollBus => PolledEvent(s.bus, CHILD_PROCESS_QUIT, s.polls);
      case _ =>
    }
  }

  /** A change calls the waker of every callback that it takes off the bus. */
  lemma {:induction false} KeptOrCalled(cbs: seq<Callback>, event: Event, cb: Callback)
    requires cb in cbs
    ensures cb in Kept(cbs, event) || cb.waker in Fired(cbs, event)
  {
    hide Fires;
    var n := |cbs| - 1;
    if cb in cbs[..n] {
      KeptOrCalled(cbs[..n], event, cb);
    }
  }

  lemma ChangeKeepsBus(s: State, s': State, reset: Event, set_: Event)
    requires BusOk(s) && s'.bus == Changed(s.bus, reset, set_)
    requires s'.phase.Blocked? ==> s'.phase == s.phase
    ensures BusOk(s')
  {
    hide Kept, Fired, NewEvent, Quiet;
    ChangedIsQuiet(s.bus, reset, set_);
    if s'.phase.Blocked? {
      var cb := Masked(CHILD_PROCESS_QUIT, s.phase.waker);
      if cb in s.bus.callbacks {
        KeptOrCalled(s.bus.callbacks, NewEvent(s.bus.event, reset, set_), cb);
      }
    }
  }

  lemma StepKeepsBus(s: State, step: Step, late: bool)
    requires BusOk(s) && Enabled(s, step, late)
    ensures BusOk(Next(s, step, late))
  {
    hide Changed, Intersects, Quiet, Retained, NoneToAwait;
    var s' := Next(s, step, late);
    match step {
      case ExitNotify(id) =>
        if s.procs[id].mine {
          ChangeKeepsBus(s, s', 0, CHILD_PROCESS_QUIT);
        }
      case OtherEvent(set_) => ChangeKeepsBus(s, s', 0, set_);
      case ClearFlag => ChangeKeepsBus(s, s', CHILD_PROCESS_QUIT, 0);
      case PollBus => PolledIsQuiet(s.bus, CHILD_PROCESS_QUIT, s.polls);
      case _ =>
    }
  }

  // ------------------------------------------------------------------ seen alive, not missed

  lemma StepKeepsSeen(s: State, step: Step, id: nat)
    requires NamesOk(s) && PhaseOk(s) && SeenOk(s, id) && Enabled(s, step, false)
    requires forall i :: 0 <= i < |s.children| ==> s.children[i] < |s.procs|
    ensures SeenOk(Next(s, step, false), id)
  {
    hide FlagSet;
    FlagKept(s, step, false);
    if IsWaiterStep(step) {
      WaiterKeepsSeen(s, step, id);
    } else {
      OthersKeepSeen(s, step, id);
    }
  }

  lemma WaiterKeepsSeen(s: State, step: Step, id: nat)
    requires NamesOk(s) && PhaseOk(s) && SeenOk(s, id) && Enabled(s, step, false) && IsWaiterStep(step)
    requires FlagSet(s) && !step.ClearFlag? ==> FlagSet(Next(s, step, false))
    ensures SeenOk(Next(s, step, false), id)
  {
    hide FlagSet, Changed, Polled, Retained, NoneToAwait, SomeAwaited, InTable, HandOk;
    if step.LookOne? {
      LookKeepsSeen(s, id);
    } else if step.ScanOne? {
      hide PastNotify;
    }
  }

  /** A candidate that is looked at and passed over is alive. */
  lemma LookKeepsSeen(s: State, id: nat)
    requires NamesOk(s) && PhaseOk(s) && SeenOk(s, id) && Enabled(s, LookOne, false)
    ensures SeenOk(Next(s, LookOne, false), id)
  {
    hide Intersects, HandOk;
  }

  lemma OthersKeepSeen(s: State, step: Step, id: nat)
    requires NamesOk(s) && PhaseOk(s) && SeenOk(s, id) && Enabled(s, step, false) && !IsWaiterStep(step)
    requires FlagSet(s) ==> FlagSet(Next(s, step, false))
    requires step.ExitNotify? && s.procs[step.id].mine ==> FlagSet(Next(s, step, false))
    ensures SeenOk(Next(s, step, false), id)
  {
    hide FlagSet, PhaseOk, Seen, Enabled, Next, SameView;
    var s' := Next(s, step, false);
    if step.Fork? {
      ForkKeepsSeen(s, step.mine, step.pid, id);
    } else {
      OthersKeepView(s, step, false);
      if id < |s'.procs| && Seen(s', id) && !s'.procs[id].dropped {
        SeenShrinks(s, s', id);
        PastNotifyBy(s, step, id);
      }
    }
  }

  /** A process gets past raising the flag by raising it. */
  lemma PastNotifyBy(s: State, step: Step, id: nat)
    requires Enabled(s, step, false) && !IsWaiterStep(step) && !step.Fork? && id < |s.procs|
    ensures var s' := Next(s, step, false);
            |s'.procs| == |s.procs|
            && (PastNotify(s'.procs[id]) ==> PastNotify(s.procs[id]) || step == ExitNotify(id))
  {
    hide Changed, InTable;
  }

  lemma SeenShrinks(s: State, s': State, id: nat)
    requires NamesOk(s) && SameView(s, s') && id < |s'.procs| && Seen(s', id)
    ensures id < |s.procs| && Seen(s, id) && s.procs[id].mine && (s.procs[id].dropped ==> s'.procs[id].dropped)
  {
  }

  /** A new process has not exited, and hides no child that is awaited. */
  lemma ForkKeepsSeen(s: State, mine: bool, pid: nat, id: nat)
    requires NamesOk(s) && PhaseOk(s) && SeenOk(s, id) && Enabled(s, Fork(mine, pid), false)
    ensures SeenOk(Next(s, Fork(mine, pid), false), id)
  {
    hide Intersects, SomeAwaited;
  }

  lemma StepKeepsInv(s: State, step: Step)
    requires Inv(s) && Enabled(s, step, false)
    ensures Inv(Next(s, step, false))
  {
    hide Enabled, Next, BookAt, ReturnsOk, PhaseOk, BusOk, SeenOk;
    StepKeepsNames(s, step, false);
    StepKeepsBooks(s, step, false);
    StepKeepsPhase(s, step, false);
    StepKeepsBus(s, step, false);
    forall id: nat ensures SeenOk(Next(s, step, false), id) {
      StepKeepsSeen(s, step, id);
    }
  }

  // ---------------------------------------------------------------------- every reachable state

  ghost predicate Goes(s: State, step: Step, s': State, late: bool) {
    Enabled(s, step, late) && s' == Next(s, step, late)
  }

  ghost predicate IsRun(trace: seq<State>, steps: seq<Step>, late: bool) {
    && |trace| == |steps| + 1 && Init(trace[0])
    && forall i :: 0 <= i < |steps| ==> Goes(trace[i], steps[i], trace[i + 1], late)
  }

  ghost predicate EndsIn(trace: seq<State>, steps: seq<Step>, s: State, late: bool) {
    IsRun(trace, steps, late) && trace[|steps|] == s
  }

  /** Some interleaving of the waiter and all other processes leads to `s`. */
  ghost predicate Reachable(s: State, late: bool) {
    exists trace, steps :: EndsIn(trace, steps, s, late)
  }

  lemma InitOk(s: State)
    requires Init(s)
    ensures Inv(s)
  {
  }

  lemma {:induction false} RunKeepsInv(trace: seq<State>, steps: seq<Step>, i: nat)
    requires IsRun(trace, steps, false) && i < |trace|
    ensures Inv(trace[i])
  {
    hide Inv, Next, Enabled;
    if i == 0 {
      InitOk(trace[0]);
    } else {
      RunKeepsInv(trace, steps, i - 1);
      assert Goes(trace[i - 1], steps[i - 1], trace[i], false);
      StepKeepsInv(trace[i - 1], steps[i - 1]);
    }
  }

  lemma ReachableOk(s: State)
    requires Reachable(s, false)
    ensures Inv(s)
  {
    hide Inv, IsRun;
    var trace, steps :| EndsIn(trace, steps, s, false);
    assert |trace| == |steps| + 1 by {
      RunLength(trace, steps);
    }
    RunKeepsInv(trace, steps, |steps|);
  }

  lemma RunLength(trace: seq<State>, steps: seq<Step>)
    requires IsRun(trace, steps, false)
    ensures |trace| == |steps| + 1
  {
  }

  /**
   No lost wakeup, in both modes: whenever the parent is blocked although a child that its call
   would find has exited, the flag is set and the parent's waker has been called.
   */
  lemma NoLostWakeup(s: State, id: nat)
    requires Reachable(s, false) && s.phase.Blocked? && Findable(s, id) && HasExited(s, id)
    ensures FlagSet(s) && s.phase.waker in s.bus.woken
  {
    hide Reachable;
    ReachableOk(s);
    assert SeenOk(s, id);
    var cb := Masked(CHILD_PROCESS_QUIT, s.phase.waker);
    assert Fires(cb, s.bus.event);
    assert forall k :: 0 <= k < |s.bus.callbacks| ==> s.bus.callbacks[k] != cb;
  }

  /** What is returned has exited, is a child in any-child mode and has the pid asked for in the other. */
  lemma WaitReturnsExited(s: State)
    requires Reachable(s, false)
    ensures s.phase.Found? ==>
              && s.phase.id < |s.procs| && s.procs[s.phase.id].exited
              && (s.call.AnyChild? ==> s.phase.id in s.children && s.procs[s.phase.id].mine)
              && (s.call.OnePid? ==> s.procs[s.phase.id].pid == s.call.pid)
    ensures s.phase.Blocked? ==> SomeAwaited(s)
  {
    hide Reachable, SomeAwaited;
    ReachableOk(s);
    if s.phase.Found? && s.call.AnyChild? {
      var i :| 0 <= i < |s.children| && s.children[i] == s.phase.id;
    }
  }

  /** The scan for one pid, once the table has been read and the process looked at. */
  ghost function PidScanned(s: State): State
    requires s.phase == Scanning(0) && s.call.OnePid? && s.call.pid in s.table
    requires s.table[s.call.pid] < |s.procs| && !s.procs[s.table[s.call.pid]].locked
  {
    Next(Next(s, ScanOne, false), LookOne, false)
  }

  /**
   The pid is looked up among all processes: a process that is not a child is returned exactly when
   the pid names an exited process of another parent.
   */
  lemma ReturnsNonChildIff(s: State)
    requires Reachable(s, false) && s.phase == Scanning(0) && s.call.OnePid? && s.call.pid in s.table
    requires s.table[s.call.pid] < |s.procs| && !s.procs[s.table[s.call.pid]].locked
    ensures var s', p := PidScanned(s), s.procs[s.table[s.call.pid]];
            && (s'.phase.Found? <==> p.exited)
            && (s'.phase.Found? && s'.phase.id !in s'.children <==> p.exited && !p.mine)
  {
    hide Reachable;
    ReachableOk(s);
    assert BookAt(s, s.table[s.call.pid]);
    if s.table[s.call.pid] in s.children {
      var i :| 0 <= i < |s.children| && s.children[i] == s.table[s.call.pid];
    }
  }

  /** No process is returned to the waiter twice, whatever modes it mixes and however pids are reused. */
  lemma ReturnedOnce(s: State)
    requires Reachable(s, false)
    ensures forall i, j :: 0 <= i < j < |s.given| && s.given[i].mine && s.given[j].mine ==>
              s.given[i].id != s.given[j].id
    ensures s.phase.Found? ==> !GivenToMe(s, s.phase.id)
  {
    hide Reachable;
    ReachableOk(s);
  }

  /**
   What is about to be returned is in the table exactly as long as its pid has not been given out again
   and nobody has been returned a process with that pid since it was made.
   */
  lemma ReturnedFirstIff(s: State)
    requires Reachable(s, false) && s.phase.Found?
    ensures InTable(s, s.phase.id) <==> StillNamed(s, s.phase.id)
  {
    hide Reachable;
    ReachableOk(s);
    assert BookAt(s, s.phase.id);
  }

  /**
   The return of `s.phase.id` takes `id`, another process, out of the table or the children exactly
   when it has the same pid and nothing has taken it out before.
   */
  lemma PushedOutIff(s: State, id: nat)
    requires Reachable(s, false) && Enabled(s, Reap, false) && id < |s.procs| && id != s.phase.id
    ensures InTable(s, id) && !InTable(Next(s, Reap, false), id) <==> SamePid(s, s.phase.id, id) && StillNamed(s, id)
    ensures id in s.children && id !in Next(s, Reap, false).children <==>
            SamePid(s, s.phase.id, id) && s.procs[id].mine && !ReturnedSince(s, id, true)
  {
    hide Reachable, StillNamed, ReturnedSince, Retained;
    ReachableOk(s);
    assert BookAt(s, id);
    RetainedMember(s.procs, s.children, s.procs[s.phase.id].pid, id);
  }

  /**
   A child can be waited for by its pid exactly as long as its pid has not been given out again and
   nobody has been returned a process with that pid since it was forked; and as any child exactly as
   long as somebody holds it and the waiter has not been returned one with that pid.
   */
  lemma FindableIff(s: State, id: nat)
    requires Reachable(s, false) && id < |s.procs| && s.procs[id].mine
    ensures Findable(s.(call := OnePid(s.procs[id].pid)), id) <==> StillNamed(s, id)
    ensures Findable(s.(call := AnyChild), id) <==> !s.procs[id].dropped && !ReturnedSince(s, id, true)
    ensures StillNamed(s, id) ==> !s.procs[id].dropped && !ReturnedSince(s, id, true)
  {
    hide Reachable, GivenOutAgain;
    ReachableOk(s);
    assert BookAt(s, id);
    if ReturnedSince(s, id, true) {
      var k :| 0 <= k < |s.given| && Counts(s, s.given[k], id, true);
      assert Counts(s, s.given[k], id, false);
    }
  }

  predicate Returned(s: State, id: nat) {
    exists r :: r in s.given && r.id == id
  }

  /**
   Pids are handed on in order: a child is returned before its pid is given out again, and no
   earlier owner of that pid is returned while the new owner is a child that has not been returned.
   */
  ghost predicate InOrder(s: State) {
    forall i: nat, j: nat :: i < j && SamePid(s, j, i) ==> HandedOn(s, i, j)
  }

  predicate HandedOn(s: State, i: nat, j: nat)
    requires i < |s.procs| && j < |s.procs|
  {
    && (s.procs[i].mine ==> Returned(s, i))
    && (s.procs[j].mine && !Returned(s, j) ==> forall r :: r in s.given && r.id == i ==> r.made <= j)
  }

  /** Every child that has not been returned to anybody can be waited for by its pid. */
  ghost predicate NoneLost(s: State) {
    forall id :: 0 <= id < |s.procs| && s.procs[id].mine && !Returned(s, id) ==>
      Findable(s.(call := OnePid(s.procs[id].pid)), id)
  }

  /** No child is lost exactly when pids are handed on in order. */
  lemma NoneLostIff(s: State)
    requires Reachable(s, false)
    ensures NoneLost(s) <==> InOrder(s)
  {
    hide Reachable, Findable, Inv, Returned;
    ReachableOk(s);
    if InOrder(s) {
      forall id | 0 <= id < |s.procs| && s.procs[id].mine && !Returned(s, id)
        ensures Findable(s.(call := OnePid(s.procs[id].pid)), id)
      {
        FindableIff(s, id);
        InOrderNamed(s, id);
      }
    }
    if NoneLost(s) {
      forall i: nat, j: nat | i < j && SamePid(s, j, i) ensures HandedOn(s, i, j) {
        if s.procs[i].mine {
          FindableIff(s, i);
        }
        if s.procs[j].mine && !Returned(s, j) {
          FindableIff(s, j);
          NamedSince(s, i, j);
        }
      }
    }
  }

  lemma InOrderNamed(s: State, id: nat)
    requires InOrder(s) && id < |s.procs| && s.procs[id].mine && !Returned(s, id)
    ensures StillNamed(s, id)
  {
    assert !GivenOutAgain(s, id);
    forall k | 0 <= k < |s.given| ensures !Counts(s, s.given[k], id, false) {
      assert s.given[k] in s.given && s.given[k].id != id;
      assert SamePid(s, s.given[k].id, id) ==> SamePid(s, id, s.given[k].id);
    }
  }

  lemma NamedSince(s: State, i: nat, j: nat)
    requires SamePid(s, j, i) && StillNamed(s, j)
    ensures forall r :: r in s.given && r.id == i ==> r.made <= j
  {
    forall r | r in s.given && r.id == i ensures r.made <= j {
      var k :| 0 <= k < |s.given| && s.given[k] == r;
      assert !Counts(s, s.given[k], j, false);
    }
  }

  /** While no two processes share a pid, a child can be waited for, in both modes, exactly until it is returned. */
  lemma FindableUntilReturned(s: State, id: nat)
    requires Reachable(s, false) && (forall i: nat, j: nat :: i < j ==> !SamePid(s, j, i))
    requires id < |s.procs| && s.procs[id].mine
    ensures Findable(s.(call := OnePid(s.procs[id].pid)), id) <==> !Returned(s, id)
    ensures !Returned(s, id) ==> Findable(s.(call := AnyChild), id)
  {
    hide Reachable, Findable, Returned;
    NoneLostIff(s);
    FindableIff(s, id);
    if Returned(s, id) {
      ReachableOk(s);
      ReturnCounts(s, id);
    }
  }

  lemma ReturnCounts(s: State, id: nat)
    requires ReturnsOk(s) && id < |s.procs| && Returned(s, id)
    ensures ReturnedSince(s, id, false)
  {
    var r :| r in s.given && r.id == id;
    var k :| 0 <= k < |s.given| && s.given[k] == r;
    assert ReturnOk(s, s.given[k]);
    assert Counts(s, s.given[k], id, false);
  }
}
