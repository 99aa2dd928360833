/** Sending signals to a process and delivering them to one of its threads. */
module SignalDelivery {
  import opened Machine
  import opened RawMemory
  import opened Sigsets
  import opened SignalFrames
  import opened SignalQueue
  import EB = EventBus

  const SIG_DFL: nat := 0
  const SIG_IGN: nat := 1
  const SIG_ERR: nat := TWO_64 - 2

  const SA_RESTORER: bv64 := 0x0400_0000
  const SA_ONSTACK: bv64 := 0x0800_0000

  const SS_ONSTACK: bv32 := 1
  const SS_DISABLE: bv32 := 2
  const SS_AUTODISARM: bv32 := 0x8000_0000

  const SIGHUP: Signal := 1
  const SIGINT: Signal := 2
  const SIGALRM: Signal := 14

  datatype Action = Action(handler: U64, flags: bv64, restorer: U64, mask: Sigset)

  datatype ThreadState = ThreadState(mask: Sigset, stack: AltStack, context: Context)

  datatype Outcome = Returns | Exits(code: bv64) | Panics

  // ------------------------------------------------------------ choosing a signal

  predicate Mine(entry: Entry, tid: nat) {
    entry.tid == -1 || Usize(entry.tid) == tid
  }

  predicate Deliverable(entry: Entry, tid: nat, mask: Sigset) {
    Mine(entry, tid) && !Contains(mask, entry.info.signo)
  }

  /** `has_signal_to_handle` */
  ghost predicate HasSignal(queue: seq<Entry>, tid: nat, mask: Sigset) {
    exists i :: 0 <= i < |queue| && Deliverable(queue[i], tid, mask)
  }

  /** The first queued entry that may be delivered, if any may. */
  function FirstDeliverable(queue: seq<Entry>, tid: nat, mask: Sigset): (r: Option<nat>)
    ensures r.Some? ==> r.value < |queue| && Deliverable(queue[r.value], tid, mask)
                        && forall i :: 0 <= i < r.value ==> !Deliverable(queue[i], tid, mask)
    ensures r.None? ==> !HasSignal(queue, tid, mask)
  {
    if queue == [] then None
    else if Deliverable(queue[0], tid, mask) then Some(0)
    else
      var rest := FirstDeliverable(queue[1..], tid, mask);
      assert forall i :: 0 < i < |queue| ==> queue[i] == queue[1..][i - 1];
      if rest.None? then None else Some(rest.value + 1)
  }

  // ------------------------------------------------------------ entering a handler

  predicate IsFatal(info: Info, action: Action) {
    action.handler == SIG_DFL && info.signo in {SIGALRM, SIGHUP, SIGINT}
  }

  predicate HasUserHandler(action: Action) {
    action.handler !in {SIG_DFL, SIG_IGN, SIG_ERR}
  }

  predicate WantsAltStack(action: Action) {
    action.flags & SA_ONSTACK != 0
  }

  predicate HasRestorer(action: Action) {
    action.flags & SA_RESTORER != 0
  }

  predicate Disabled(stack: AltStack) {
    stack.flags & SS_DISABLE != 0
  }

  predicate AutoDisarms(stack: AltStack) {
    stack.flags & SS_AUTODISARM != 0
  }

  function WithFlag(stack: AltStack, flag: bv32): AltStack {
    stack.(flags := stack.flags | flag)
  }

  predicate UsesAltStack(action: Action, stack: AltStack) {
    WantsAltStack(action) && !Disabled(stack)
  }

  /** Where the frame goes: under the alternate stack's top, or under the stack pointer. */
  function FrameSp(st: ThreadState, action: Action): U64 {
    Usize((if UsesAltStack(action, st.stack) then Usize(st.stack.sp + st.stack.size) else st.context.sp) - FRAME_SIZE)
  }

  function StackAfter(stack: AltStack, action: Action): AltStack {
    if !UsesAltStack(action, stack) then stack
    else if AutoDisarms(stack) then WithFlag(WithFlag(stack, SS_ONSTACK), SS_DISABLE)
    else WithFlag(stack, SS_ONSTACK)
  }

  /** `MachineContext::from_tf`: x11 is saved with the value of x13. */
  function Saved(context: Context): Context {
    context.(x := context.x[11 := context.x[13]])
  }

  /** The saved context is the interrupted one exactly when x11 and x13 happen to agree. */
  lemma SavedExactlyIff(context: Context)
    ensures Saved(context) == context <==> context.x[11] == context.x[13]
    ensures forall i :: 0 <= i < 31 && i != 11 ==> Saved(context).x[i] == context.x[i]
  {
    if context.x[11] == context.x[13] {
      assert Saved(context).x == context.x;
    }
  }

  /** `set_signal_handler`: the handler gets its signal and the addresses of both parts of the frame. */
  function HandlerEntry(context: Context, sp: U64, handler: U64, s: Signal): Context {
    context.(x := context.x[0 := s as nat][1 := Usize(sp + INFO_OFFSET)][2 := Usize(sp + UCONTEXT_OFFSET)],
             sp := sp, pc := handler)
  }

  /** While the handler runs, its signal and the signals of its action are blocked. */
  function MaskAfter(mask: Sigset, s: Signal, action: Action): Sigset {
    AddSet(Add(mask, s), action.mask)
  }

  /** A frame that saves `st`, and the state in which its handler starts. */
  ghost predicate Enters(st: ThreadState, frame: Frame, action: Action, st': ThreadState) {
    && HasUserHandler(action) && !Contains(st.mask, frame.info.signo)
    && frame.mask == st.mask && frame.stack == st.stack && frame.context == Saved(st.context)
    && frame.sp == FrameSp(st, action)
    && frame.restorer == (if HasRestorer(action) then Some(action.restorer) else None)
    && st' == ThreadState(MaskAfter(st.mask, frame.info.signo, action), StackAfter(st.stack, action),
                          HandlerEntry(st.context, frame.sp, action.handler, frame.info.signo))
  }

  /** The registers at the start of a handler: its signal in x0, and all but the arguments as they were. */
  predicate StartsHandler(c: Context, before: Context, action: Action, info: Info, sp: nat) {
    && c.pc == action.handler && c.sp == sp && c.pstate == before.pstate && c.x[0] == info.signo as nat
    && (forall i :: 3 <= i < 31 ==> c.x[i] == before.x[i])
  }

  predicate IsInfo(v: InfoView, info: Info) {
    v.signo == info.signo as int && v.errno == info.errno && v.code == info.code && v.fields == info.fields
  }

  /** The state that was interrupted, but for x11. */
  predicate IsSaved(u: UcontextView, st: ThreadState) {
    && u.stackSp == st.stack.sp && u.stackFlags == st.stack.flags as nat && u.stackSize == st.stack.size
    && u.mask == st.mask as nat && u.sp == st.context.sp && u.pc == st.context.pc && u.pstate == st.context.pstate
    && |u.x| == 31 && u.x[11] == st.context.x[13]
    && forall i :: 0 <= i < 31 && i != 11 ==> u.x[i] == st.context.x[i]
  }

  /**
   What a handler finds. It starts at the action's address, its first argument is the signal, the
   second leads to the signal information and the third to the state that was interrupted; the word
   at the stack pointer is the restorer or the address of the code in the frame.
   */
  lemma HandlerFindsFrame(st: ThreadState, frame: Frame, action: Action, st': ThreadState, mem: Mem)
    requires Enters(st, frame, action, st') && frame.sp + FRAME_SIZE <= TWO_64 && Holds(mem, frame)
    ensures StartsHandler(st'.context, st.context, action, frame.info, frame.sp)
    ensures IsInfo(ReadInfo(mem, st'.context.x[1]), frame.info) && IsSaved(ReadUcontext(mem, st'.context.x[2]), st)
    ensures LoadWord(mem, frame.sp) == if action.flags & 0x0400_0000 != 0 then action.restorer else frame.sp + 464
  {
    hide Contains, Add, AddSet, Holds, ReadInfo, ReadUcontext, LoadWord, HasUserHandler, FrameSp, HasRestorer, StackAfter,
         LoadBytes;
    FrameIsRead(mem, frame);
    SmallAddress(frame.sp);
    EntryRegisters(st.context, frame.sp, action, frame.info.signo);
    RestorerBit(action);
  }

  lemma RestorerBit(action: Action)
    ensures HasRestorer(action) <==> action.flags & 0x0400_0000 != 0
  {
  }

  lemma EntryRegisters(context: Context, sp: U64, action: Action, s: Signal)
    requires sp + FRAME_SIZE <= TWO_64
    ensures var c := HandlerEntry(context, sp, action.handler, s);
            && c.x[1] == sp + 8 && c.x[2] == sp + 136
            && c.pc == action.handler && c.sp == sp && c.pstate == context.pstate && c.x[0] == s as nat
            && (forall i :: 3 <= i < 31 ==> c.x[i] == context.x[i])
  {
    SmallAddress(sp);
  }

  lemma SmallAddress(sp: U64)
    requires sp + FRAME_SIZE <= TWO_64
    ensures Usize(sp + 8) == sp + 8 && Usize(sp + 136) == sp + 136 && Usize(sp + 464) == sp + 464
  {
  }

  /** Where the frame is: under the alternate stack's top if the action wants that and it is not disabled. */
  lemma FramePlace(st: ThreadState, frame: Frame, action: Action, st': ThreadState)
    requires Enters(st, frame, action, st')
    ensures UsesAltStack(action, st.stack) ==> Usize(frame.sp + 472) == Usize(st.stack.sp + st.stack.size)
    ensures !UsesAltStack(action, st.stack) ==> Usize(frame.sp + 472) == st.context.sp
    ensures UsesAltStack(action, st.stack) <==> action.flags & 0x0800_0000 != 0 && st.stack.flags & 2 == 0
  {
    hide Contains, Add, AddSet, HasUserHandler, WantsAltStack, Disabled, Usize, MaskAfter, StackAfter, HandlerEntry, Saved,
         HasRestorer;
    UnderTop(st.stack.sp + st.stack.size);
    UnderTop(st.context.sp);
    AltStackBits(action, st.stack);
  }

  lemma AltStackBits(action: Action, stack: AltStack)
    ensures UsesAltStack(action, stack) <==> action.flags & 0x0800_0000 != 0 && stack.flags & 2 == 0
  {
  }

  lemma UnderTop(top: int)
    ensures Usize(Usize(top - FRAME_SIZE) + 472) == Usize(top) && Usize(Usize(Usize(top) - FRAME_SIZE) + 472) == Usize(top)
    ensures 0 <= top < TWO_64 ==> Usize(top) == top
  {
    assert Usize(Usize(top)) == Usize(top);
    assert 0 <= top < TWO_64 ==> Usize(top) == top;
    hide Usize;
    WrapAdd(top - FRAME_SIZE, 472);
    WrapAdd(Usize(top) - FRAME_SIZE, 472);
  }

  lemma WrapAdd(x: int, y: int)
    ensures Usize(Usize(x) + y) == Usize(x + y)
  {
  }

  /** A handler is not interrupted by its own signal or one its action blocks, and by no other than before. */
  lemma MaskAfterExact(mask: Sigset, s: Signal, action: Action, t: Signal)
    ensures Contains(MaskAfter(mask, s, action), t) <==> Contains(mask, t) || s == t || Contains(action.mask, t)
  {
    hide Contains, Add, AddSet;
    AddedAt(mask, s, t);
    UnionAt(Add(mask, s), action.mask, t);
  }

  /** On the alternate stack it is marked as in use, and disarmed if it is to be. */
  lemma StackAfterExact(stack: AltStack, action: Action)
    ensures var s := StackAfter(stack, action);
            && s.sp == stack.sp && s.size == stack.size
            && (UsesAltStack(action, stack) ==> s.flags & 1 != 0 && (Disabled(s) <==> AutoDisarms(stack)))
            && (AutoDisarms(stack) <==> stack.flags & 0x8000_0000 != 0)
            && (!UsesAltStack(action, stack) ==> s == stack)
  {
  }

  /** The frames were written one after the other, each saving the state its predecessor left. */
  ghost predicate EntersAll(states: seq<ThreadState>, frames: seq<Frame>, actions: Signal -> Action) {
    && |states| == |frames| + 1
    && forall k :: 0 <= k < |frames| ==> Enters(states[k], frames[k], actions(frames[k].info.signo), states[k + 1])
  }

  lemma EntersOneMore(states: seq<ThreadState>, frames: seq<Frame>, actions: Signal -> Action, frame: Frame, st: ThreadState)
    requires EntersAll(states, frames, actions) && Enters(states[|frames|], frame, actions(frame.info.signo), st)
    ensures EntersAll(states + [st], frames + [frame], actions)
  {
    hide Enters;
    var more, fs := states + [st], frames + [frame];
    forall k | 0 <= k < |fs| ensures Enters(more[k], fs[k], actions(fs[k].info.signo), more[k + 1]) {
      assert k < |frames| ==> Enters(states[k], frames[k], actions(frames[k].info.signo), states[k + 1]);
    }
  }

  lemma EnterBlocks(st: ThreadState, frame: Frame, action: Action, st': ThreadState, t: Signal)
    requires Enters(st, frame, action, st')
    ensures Contains(st.mask, t) || frame.info.signo == t ==> Contains(st'.mask, t)
    ensures !Contains(st.mask, frame.info.signo)
  {
    hide Contains, Add, AddSet;
    AddedAt(st.mask, frame.info.signo, t);
    UnionAt(Add(st.mask, frame.info.signo), action.mask, t);
  }

  /** Handlers only add to the mask: what was blocked stays so, and every entered signal is blocked. */
  lemma {:induction false} EnteredAreBlocked(states: seq<ThreadState>, frames: seq<Frame>, actions: Signal -> Action,
                                             i: nat, j: nat, t: Signal)
    requires EntersAll(states, frames, actions) && i <= j <= |frames|
    requires Contains(states[i].mask, t) || exists k :: i <= k < j && frames[k].info.signo == t
    ensures Contains(states[j].mask, t)
    decreases j
  {
    hide Contains, Enters;
    if i < j {
      var last := frames[j - 1];
      assert Enters(states[j - 1], last, actions(last.info.signo), states[j]);
      EnterBlocks(states[j - 1], last, actions(last.info.signo), states[j], t);
      if last.info.signo != t {
        EnteredAreBlocked(states, frames, actions, i, j - 1, t);
      }
    }
  }

  /** No signal number enters a handler twice. */
  lemma HandlersAreDistinct(states: seq<ThreadState>, frames: seq<Frame>, actions: Signal -> Action, j: nat, k: nat)
    requires EntersAll(states, frames, actions) && j < k < |frames|
    ensures frames[j].info.signo != frames[k].info.signo
  {
    hide Contains, Enters;
    EnteredAreBlocked(states, frames, actions, j, k, frames[j].info.signo);
    assert Enters(states[k], frames[k], actions(frames[k].info.signo), states[k + 1]);
    EnterBlocks(states[k], frames[k], actions(frames[k].info.signo), states[k + 1], frames[k].info.signo);
  }

  // ------------------------------------------------------- several frames in one call

  /** User memory after the frames were written, one after the other. */
  function WriteAll(mem: Mem, frames: seq<Frame>): Mem {
    if frames == [] then mem else WriteFrame(WriteAll(mem, frames[..|frames| - 1]), frames[|frames| - 1])
  }

  /** No frame goes to the alternate stack, and each lies in memory that the program has. */
  ghost predicate OnStack(states: seq<ThreadState>, frames: seq<Frame>, actions: Signal -> Action) {
    && EntersAll(states, frames, actions)
    && forall k :: 0 <= k < |frames| ==>
         !UsesAltStack(actions(frames[k].info.signo), states[k].stack) && frames[k].sp + FRAME_SIZE < TWO_64
  }

  lemma NextFrameBelow(states: seq<ThreadState>, frames: seq<Frame>, actions: Signal -> Action, k: nat)
    requires OnStack(states, frames, actions) && k < |frames|
    ensures frames[k].sp + FRAME_SIZE == states[k].context.sp && states[k + 1].context.sp == frames[k].sp
  {
    hide Contains, Add, AddSet, HasUserHandler, WantsAltStack, Disabled, MaskAfter, StackAfter, Saved, HasRestorer, FrameSp;
    assert Enters(states[k], frames[k], actions(frames[k].info.signo), states[k + 1]);
    FramePlace(states[k], frames[k], actions(frames[k].info.signo), states[k + 1]);
  }

  lemma {:induction false} FramesDescend(states: seq<ThreadState>, frames: seq<Frame>, actions: Signal -> Action,
                                         k: nat, m: nat)
    requires OnStack(states, frames, actions) && k < m < |frames|
    ensures frames[m].sp + FRAME_SIZE <= frames[k].sp
  {
    hide Enters, UsesAltStack;
    NextFrameBelow(states, frames, actions, k);
    NextFrameBelow(states, frames, actions, m);
    if k + 1 < m {
      NextFrameBelow(states, frames, actions, m - 1);
      FramesDescend(states, frames, actions, k, m - 1);
    }
  }

  lemma {:induction false} FramesHeld(states: seq<ThreadState>, frames: seq<Frame>, actions: Signal -> Action, mem: Mem,
                                      k: nat, n: nat)
    requires OnStack(states, frames, actions) && k < n <= |frames|
    ensures Holds(WriteAll(mem, frames[..n]), frames[k])
    decreases n
  {
    hide OnStack, Holds, WriteFrame;
    assert frames[..n][..n - 1] == frames[..n - 1];
    if k == n - 1 {
      WriteHolds(WriteAll(mem, frames[..n - 1]), frames[k]);
    } else {
      FramesHeld(states, frames, actions, mem, k, n - 1);
      FramesDescend(states, frames, actions, k, n - 1);
      HoldsBeside(WriteAll(mem, frames[..n - 1]), frames[k], frames[n - 1]);
    }
  }

  /** However many handlers one call enters on the stack, each finds its own frame when the call is over. */
  lemma EachFindsItsFrame(states: seq<ThreadState>, frames: seq<Frame>, actions: Signal -> Action, mem: Mem, k: nat)
    requires OnStack(states, frames, actions) && k < |frames|
    ensures var m, info := WriteAll(mem, frames), frames[k].info;
            && StartsHandler(states[k + 1].context, states[k].context, actions(info.signo), info, frames[k].sp)
            && IsInfo(ReadInfo(m, states[k + 1].context.x[1]), info)
            && IsSaved(ReadUcontext(m, states[k + 1].context.x[2]), states[k])
  {
    hide Enters, Holds, WriteFrame, StartsHandler, ReadInfo, ReadUcontext, IsInfo, IsSaved, UsesAltStack;
    assert frames[..|frames|] == frames;
    FramesHeld(states, frames, actions, mem, k, |frames|);
    assert Enters(states[k], frames[k], actions(frames[k].info.signo), states[k + 1]);
    HandlerFindsFrame(states[k], frames[k], actions(frames[k].info.signo), states[k + 1], WriteAll(mem, frames));
  }

  /**
   Not so on the alternate stack: the next frame takes the place of the one there exactly if its action
   wants that stack too and the stack is not disarmed by its use; otherwise it lies under it.
   */
  lemma OverwritesIff(st: ThreadState, f: Frame, a: Action, st1: ThreadState, g: Frame, b: Action, st2: ThreadState)
    requires Enters(st, f, a, st1) && Enters(st1, g, b, st2) && UsesAltStack(a, st.stack)
    requires f.sp + FRAME_SIZE < TWO_64 && g.sp + FRAME_SIZE < TWO_64
    ensures WantsAltStack(b) && !AutoDisarms(st.stack) ==> g.sp == f.sp
    ensures !(WantsAltStack(b) && !AutoDisarms(st.stack)) ==> g.sp + FRAME_SIZE == f.sp
  {
    hide Contains, Add, AddSet, HasUserHandler, WantsAltStack, Disabled, AutoDisarms, MaskAfter, StackAfter, Saved, HasRestorer,
         FrameSp;
    FramePlace(st, f, a, st1);
    FramePlace(st1, g, b, st2);
    StackAfterExact(st.stack, a);
  }

  /** Then the first handler finds its own start where the interrupted state should be. */
  lemma SavedStateLost(st: ThreadState, f: Frame, a: Action, st1: ThreadState, g: Frame, b: Action, st2: ThreadState, m: Mem)
    requires Enters(st, f, a, st1) && Enters(st1, g, b, st2) && UsesAltStack(a, st.stack)
    requires f.sp + FRAME_SIZE < TWO_64 && g.sp + FRAME_SIZE < TWO_64 && Holds(m, g)
    requires WantsAltStack(b) && !AutoDisarms(st.stack)
    ensures IsSaved(ReadUcontext(m, st1.context.x[2]), st1) && st1.context.pc == a.handler
  {
    hide Contains, Add, AddSet, HasUserHandler, WantsAltStack, AutoDisarms, MaskAfter, StackAfter, Saved, HasRestorer, FrameSp,
         ReadUcontext, ReadInfo, Holds, UsesAltStack, LoadWord;
    OverwritesIff(st, f, a, st1, g, b, st2);
    HandlerFindsFrame(st1, g, b, st2, m);
    EntryRegisters(st.context, f.sp, a, f.info.signo);
    EntryRegisters(st1.context, g.sp, b, g.info.signo);
  }

  // ------------------------------------------------------- what a call has delivered

  /**
   The deliveries of one call: the queues passed through, the indices removed, what they held; and
   the states of the thread before the first handler and after each.
   */
  datatype Log = Log(trace: seq<Pending>, idxs: seq<nat>, infos: seq<Info>, states: seq<ThreadState>)

  /** From `p`, every delivery took an entry for thread `tid` that `mask` does not block. */
  ghost predicate LogOk(log: Log, p: Pending, p': Pending, tid: nat, mask: Sigset) {
    && |log.trace| == |log.idxs| + 1 == |log.infos| + 1 && log.trace[0] == p && log.trace[|log.idxs|] == p'
    && forall i :: 0 <= i < |log.idxs| ==> Delivery(log.trace[i], log.idxs[i], log.infos[i], log.trace[i + 1], tid, mask)
  }

  ghost predicate Delivery(p: Pending, idx: nat, info: Info, p': Pending, tid: nat, mask: Sigset) {
    && idx < |p.queue| && p.queue[idx].info == info
    && (p.queue[idx].tid == -1 || Usize(p.queue[idx].tid) == tid) && !Contains(mask, info.signo)
    && p' == Next(p, Deliver(idx))
  }

  lemma LogOneMore(log: Log, p: Pending, p': Pending, tid: nat, mask: Sigset, idx: nat, info: Info, p'': Pending)
    requires LogOk(log, p, p', tid, mask) && Delivery(p', idx, info, p'', tid, mask)
    ensures forall states :: LogOk(Log(log.trace + [p''], log.idxs + [idx], log.infos + [info], states), p, p'', tid, mask)
  {
    hide Delivery;
    var more := Log(log.trace + [p''], log.idxs + [idx], log.infos + [info], []);
    forall i | 0 <= i < |more.idxs|
      ensures Delivery(more.trace[i], more.idxs[i], more.infos[i], more.trace[i + 1], tid, mask)
    {
      assert i < |log.idxs| ==> Delivery(log.trace[i], log.idxs[i], log.infos[i], log.trace[i + 1], tid, mask);
    }
  }

  /** The delivered signals that have a handler of the program. */
  ghost function Handled(infos: seq<Info>, actions: Signal -> Action): seq<Info> {
    if infos == [] then []
    else
      var last := infos[|infos| - 1];
      Handled(infos[..|infos| - 1], actions) + if HasUserHandler(actions(last.signo)) then [last] else []
  }

  function InfosOf(frames: seq<Frame>): seq<Info> {
    seq(|frames|, i requires 0 <= i < |frames| => frames[i].info)
  }

  ghost predicate Benign(info: Info, actions: Signal -> Action) {
    !IsFatal(info, actions(info.signo)) && actions(info.signo).handler != SIG_ERR
  }

  /** `queue'` is `queue` in order, without some entries for thread `tid`. */
  ghost predicate Thinned(queue: seq<Entry>, queue': seq<Entry>, tid: nat) {
    if queue == [] then queue' == []
    else
      || (queue' != [] && queue[0] == queue'[0] && Thinned(queue[1..], queue'[1..], tid))
      || (Mine(queue[0], tid) && Thinned(queue[1..], queue', tid))
  }

  lemma {:induction false} NothingThinned(queue: seq<Entry>, tid: nat)
    ensures Thinned(queue, queue, tid)
  {
    if queue != [] {
      NothingThinned(queue[1..], tid);
    }
  }

  lemma {:induction false} ThinnedMore(queue: seq<Entry>, queue': seq<Entry>, tid: nat, idx: nat)
    requires Thinned(queue, queue', tid) && idx < |queue'| && Mine(queue'[idx], tid)
    ensures Thinned(queue, WithoutAt(queue', idx), tid)
    decreases |queue|
  {
    hide Mine;
    if queue'[0] == queue[0] && Thinned(queue[1..], queue'[1..], tid) {
      if idx == 0 {
        assert WithoutAt(queue', 0) == queue'[1..];
      } else {
        ThinnedMore(queue[1..], queue'[1..], tid, idx - 1);
        assert WithoutAt(queue', idx)[1..] == WithoutAt(queue'[1..], idx - 1);
      }
    } else {
      ThinnedMore(queue[1..], queue', tid, idx);
    }
  }

  lemma {:induction false} LogThins(log: Log, p: Pending, p': Pending, tid: nat, mask: Sigset, i: nat)
    requires LogOk(log, p, p', tid, mask) && i < |log.trace|
    ensures Thinned(p.queue, log.trace[i].queue, tid)
  {
    if i == 0 {
      NothingThinned(p.queue, tid);
    } else {
      LogThins(log, p, p', tid, mask, i - 1);
      assert Delivery(log.trace[i - 1], log.idxs[i - 1], log.infos[i - 1], log.trace[i], tid, mask);
      ThinnedMore(p.queue, log.trace[i - 1].queue, tid, log.idxs[i - 1]);
    }
  }

  /** Deliveries are steps of the pending machine, so a call keeps bits and queue in agreement. */
  lemma {:induction false} CallKeepsPending(log: Log, p: Pending, p': Pending, tid: nat, mask: Sigset, i: nat)
    requires LogOk(log, p, p', tid, mask) && PendingOk(p) && i < |log.trace|
    ensures PendingOk(log.trace[i])
  {
    if i > 0 {
      CallKeepsPending(log, p, p', tid, mask, i - 1);
      assert Delivery(log.trace[i - 1], log.idxs[i - 1], log.infos[i - 1], log.trace[i], tid, mask);
      StepKeepsPending(log.trace[i - 1], Deliver(log.idxs[i - 1]));
    }
  }

  ghost function ForOthers(queue: seq<Entry>, tid: nat): seq<Entry> {
    if queue == [] then []
    else (if Mine(queue[0], tid) then [] else [queue[0]]) + ForOthers(queue[1..], tid)
  }

  /** Entries for other threads all stay, in order. */
  lemma {:induction false} ThinnedKeepsOthers(queue: seq<Entry>, queue': seq<Entry>, tid: nat)
    requires Thinned(queue, queue', tid)
    ensures ForOthers(queue', tid) == ForOthers(queue, tid)
    decreases |queue|
  {
    hide Mine;
    if queue != [] {
      if queue' != [] && queue[0] == queue'[0] && Thinned(queue[1..], queue'[1..], tid) {
        ThinnedKeepsOthers(queue[1..], queue'[1..], tid);
      } else {
        ThinnedKeepsOthers(queue[1..], queue', tid);
      }
    }
  }

  // ----------------------------------------------------------------- the operations

  function Written(mem: Mem, frame: Option<Frame>): Mem {
    if frame.Some? then WriteFrame(mem, frame.value) else mem
  }

  lemma WriteOneMore(mem: Mem, frames: seq<Frame>, frame: Option<Frame>)
    ensures WriteAll(mem, frames + if frame.Some? then [frame.value] else []) == Written(WriteAll(mem, frames), frame)
  {
    hide WriteFrame;
    if frame.Some? {
      assert (frames + [frame.value])[..|frames|] == frames;
    } else {
      assert frames + [] == frames;
    }
  }

  class Process {
    var queue: seq<Entry>
    var pending: Sigset
    var dispositions: Signal -> Action
    var mem: Mem
    const bus: EB.SharedBus

    constructor (dispositions: Signal -> Action)
      ensures State() == Pending([], 0) && this.dispositions == dispositions && mem == map[]
      ensures fresh(bus) && bus.State() == EB.Bus(0, [], [])
    {
      queue, pending, this.dispositions, mem := [], 0, dispositions, map[];
      bus := new EB.SharedBus();
    }

    ghost function State(): Pending
      reads this
    {
      Pending(queue, pending)
    }

    predicate Drops(entry: Entry)
      reads this
    {
      IsStandard(entry.info.signo) && Contains(pending, entry.info.signo)
    }

    /**
     `send_signal`: a standard signal that is pending already is dropped; any other is queued and raises
     RECEIVE_SIGNAL, which calls the wakers that wait for it.
     */
    method Send(entry: Entry)
      modifies this`queue, this`pending, bus
      ensures State() == Next(old(State()), SignalQueue.Send(entry))
      ensures bus.State() ==
              if old(Drops(entry)) then old(bus.State()) else EB.Changed(old(bus.State()), 0, EB.RECEIVE_SIGNAL)
    {
      hide Contains, Add, EB.Changed;
      if IsStandard(entry.info.signo) && Contains(pending, entry.info.signo) {
        return;
      }
      queue := queue + [entry];
      pending := Add(pending, entry.info.signo);
      bus.Set(EB.RECEIVE_SIGNAL);
    }
  }

  class Thread {
    const tid: nat
    var mask: Sigset
    var stack: AltStack
    var context: Context

    constructor (tid: nat, mask: Sigset, stack: AltStack, context: Context)
      ensures this.tid == tid && State() == ThreadState(mask, stack, context)
    {
      this.tid, this.mask, this.stack, this.context := tid, mask, stack, context;
    }

    ghost function State(): ThreadState
      reads this
    {
      ThreadState(mask, stack, context)
    }

    /** Save the state in a frame and start the handler; no frame if the stack cannot be written. */
    method EnterHandler(process: Process, info: Info, action: Action, writable: nat -> bool) returns (frame: Option<Frame>)
      requires HasUserHandler(action) && !Contains(mask, info.signo)
      modifies this, process`mem
      ensures process.mem == Written(old(process.mem), frame)
      ensures frame.Some? <==> writable(FrameSp(old(State()), action))
      ensures frame.Some? ==> frame.value.info == info && Enters(old(State()), frame.value, action, State())
    {
      hide Contains, Add, AddSet, WantsAltStack, HasRestorer, Disabled, AutoDisarms, WithFlag, HasUserHandler, Saved,
           HandlerEntry, WriteFrame;
      var sigMask := mask;
      mask := Add(mask, info.signo);
      mask := AddSet(mask, action.mask);
      var saved := stack;
      var sp := context.sp;
      if WantsAltStack(action) {
        if !Disabled(saved) {
          stack := WithFlag(stack, SS_ONSTACK);
          if AutoDisarms(saved) {
            stack := WithFlag(stack, SS_DISABLE);
          }
          sp := Usize(saved.sp + saved.size);
        }
      }
      sp := Usize(sp - FRAME_SIZE);
      if !writable(sp) {
        return None;
      }
      var restorer := if HasRestorer(action) then Some(action.restorer) else None;
      frame := Some(Frame(sp, info, sigMask, saved, Saved(context), restorer));
      process.mem := WriteFrame(process.mem, frame.value);
      context := HandlerEntry(context, sp, action.handler, info.signo);
    }
  }

  // ------------------------------------------------------------------ handle_signal

  predicate CannotEnter(st: ThreadState, action: Action, writable: nat -> bool) {
    action.handler == SIG_ERR || (HasUserHandler(action) && !writable(FrameSp(st, action)))
  }

  /** One round of the loop: take the entry off the queue and act on its disposition. */
  method DeliverOne(process: Process, thread: Thread, idx: nat, writable: nat -> bool)
    returns (outcome: Outcome, frame: Option<Frame>)
    requires idx < |process.queue| && Deliverable(process.queue[idx], thread.tid, thread.mask)
    modifies process`queue, process`pending, process`mem, thread
    ensures process.State() == Next(old(process.State()), Deliver(idx)) && |process.queue| == |old(process.queue)| - 1
    ensures process.mem == Written(old(process.mem), frame)
    ensures var info := old(process.queue[idx].info);
            var action := process.dispositions(info.signo);
            && (outcome.Exits? <==> IsFatal(info, action)) && (outcome.Exits? ==> outcome.code == info.signo + 128)
            && (outcome.Exits? <==> action.handler == 0 && info.signo in {1, 2, 14})
            && (frame.Some? || outcome.Panics? <==> action.handler !in {0, 1})
            && (frame.Some? ==> action.handler != 0xFFFF_FFFF_FFFF_FFFE)
            && (outcome.Panics? && action.handler != 0xFFFF_FFFF_FFFF_FFFE ==> !writable(FrameSp(old(thread.State()), action)))
            && (outcome.Panics? <==> CannotEnter(old(thread.State()), action, writable))
            && (frame.Some? ==> frame.value.info == info && Enters(old(thread.State()), frame.value, action, thread.State()))
            && (frame.None? && !outcome.Panics? ==> thread.State() == old(thread.State()) && !HasUserHandler(action))
  {
    hide Contains, Remove, Enters, FrameSp, WriteFrame;
    var info := process.queue[idx].info;
    process.queue := process.queue[..idx] + process.queue[idx + 1..];
    process.pending := Remove(process.pending, info.signo);
    var action := process.dispositions(info.signo);
    outcome, frame := Returns, None;
    if action.handler == SIG_DFL {
      if info.signo == SIGALRM || info.signo == SIGHUP || info.signo == SIGINT {
        outcome := Exits(info.signo + 128);
      }
    } else if action.handler == SIG_IGN {
    } else if action.handler == SIG_ERR {
      outcome := Panics;
    } else {
      frame := thread.EnterHandler(process, info, action, writable);
      if frame.None? {
        outcome := Panics;
      }
    }
  }

  /** From `st` to `st'`, each delivered signal with a user handler got its frame, and each frame saves what was before it. */
  ghost predicate Wrote(log: Log, frames: seq<Frame>, st: ThreadState, st': ThreadState, actions: Signal -> Action) {
    && EntersAll(log.states, frames, actions) && log.states[0] == st && log.states[|frames|] == st'
    && InfosOf(frames) == Handled(log.infos, actions)
  }

  /** How far a call has come: what it delivered, which frames it wrote, nothing fatal yet. */
  ghost predicate Progress(log: Log, frames: seq<Frame>, p: Pending, p': Pending, st: ThreadState, st': ThreadState,
                           tid: nat, actions: Signal -> Action)
  {
    LogOk(log, p, p', tid, st.mask) && Wrote(log, frames, st, st', actions)
  }

  ghost predicate AllBenign(infos: seq<Info>, actions: Signal -> Action) {
    forall i :: 0 <= i < |infos| ==> Benign(infos[i], actions)
  }

  /** One more delivery, which entered a handler if there is a frame. */
  function More(log: Log, p: Pending, idx: nat, info: Info, frame: Option<Frame>, st: ThreadState): Log {
    Log(log.trace + [p], log.idxs + [idx], log.infos + [info], log.states + if frame.Some? then [st] else [])
  }

  lemma NoProgress(p: Pending, st: ThreadState, tid: nat, actions: Signal -> Action)
    ensures Progress(Log([p], [], [], [st]), [], p, p, st, st, tid, actions)
  {
  }

  /** An entry that may be delivered now could have been delivered when the call began. */
  lemma LogNext(log: Log, frames: seq<Frame>, p: Pending, p': Pending, st: ThreadState, st': ThreadState,
                tid: nat, actions: Signal -> Action, idx: nat)
    requires Progress(log, frames, p, p', st, st', tid, actions)
    requires idx < |p'.queue| && Deliverable(p'.queue[idx], tid, st'.mask)
    ensures var info, p'' := p'.queue[idx].info, Next(p', Deliver(idx));
            forall frame, st'' :: LogOk(More(log, p'', idx, info, frame, st''), p, p'', tid, st.mask)
  {
    hide Contains, LogOk, Usize, Next;
    var info, p'' := p'.queue[idx].info, Next(p', Deliver(idx));
    if Contains(st.mask, info.signo) {
      EnteredAreBlocked(log.states, frames, actions, 0, |frames|, info.signo);
    }
    LogOneMore(log, p, p', tid, st.mask, idx, info, p'');
  }

  lemma ProgressNext(log: Log, frames: seq<Frame>, p: Pending, p': Pending, st: ThreadState, st': ThreadState,
                     tid: nat, actions: Signal -> Action, idx: nat, frame: Option<Frame>, st'': ThreadState)
    requires Progress(log, frames, p, p', st, st', tid, actions)
    requires idx < |p'.queue| && Deliverable(p'.queue[idx], tid, st'.mask)
    requires var info := p'.queue[idx].info;
             if frame.Some? then frame.value.info == info && Enters(st', frame.value, actions(info.signo), st'')
             else st'' == st' && !HasUserHandler(actions(info.signo))
    ensures var info, p'' := p'.queue[idx].info, Next(p', Deliver(idx));
            Progress(More(log, p'', idx, info, frame, st''), frames + if frame.Some? then [frame.value] else [],
                     p, p'', st, st'', tid, actions)
  {
    LogNext(log, frames, p, p', st, st', tid, actions, idx);
    var info := p'.queue[idx].info;
    HandledNext(log.infos, actions, info, frames, frame, st', st'');
    if frame.Some? {
      EntersOneMore(log.states, frames, actions, frame.value, st'');
    } else {
      assert frames + [] == frames && log.states + [] == log.states;
    }
  }

  lemma HandledNext(infos: seq<Info>, actions: Signal -> Action, info: Info, frames: seq<Frame>, frame: Option<Frame>,
                    st: ThreadState, st': ThreadState)
    requires InfosOf(frames) == Handled(infos, actions)
    requires if frame.Some? then frame.value.info == info && Enters(st, frame.value, actions(info.signo), st')
             else !HasUserHandler(actions(info.signo))
    ensures InfosOf(frames + if frame.Some? then [frame.value] else []) == Handled(infos + [info], actions)
  {
    assert (infos + [info])[..|infos|] == infos;
    if frame.Some? {
      assert InfosOf(frames + [frame.value]) == InfosOf(frames) + [info];
    } else {
      assert frames + [] == frames;
    }
  }

  lemma NoneYet(actions: Signal -> Action)
    ensures AllBenign([], actions)
  {
  }

  lemma BenignNext(infos: seq<Info>, info: Info, actions: Signal -> Action, st: ThreadState, writable: nat -> bool)
    requires AllBenign(infos, actions) && !IsFatal(info, actions(info.signo))
    requires !CannotEnter(st, actions(info.signo), writable)
    ensures AllBenign(infos + [info], actions)
  {
  }

  /**
   What a call that ends with `outcome` has done: all deliveries but a last fatal one are benign, each
   delivered signal with a user handler has its frame, and each frame saves the state before it.
   */
  ghost predicate Handles(outcome: Outcome, frames: seq<Frame>, log: Log, p: Pending, p': Pending,
                          st: ThreadState, st': ThreadState, tid: nat, actions: Signal -> Action)
  {
    && LogOk(log, p, p', tid, st.mask)
    && (outcome.Returns? ==> AllBenign(log.infos, actions))
    && (!outcome.Returns? ==> log.infos != [] && AllBenign(log.infos[..|log.infos| - 1], actions))
    && (outcome.Exits? ==>
          var last := log.infos[|log.infos| - 1];
          IsFatal(last, actions(last.signo)) && outcome.code == last.signo + 128)
    && (outcome.Panics? ==>
          var action := actions(log.infos[|log.infos| - 1].signo);
          action.handler == SIG_ERR || HasUserHandler(action))
    && (!outcome.Panics? ==> Wrote(log, frames, st, st', actions))
  }

  /** A round that goes on keeps `Progress`; one that ends the call leaves what `Handles` says. */
  method Round(process: Process, thread: Thread, idx: nat, writable: nat -> bool, frames: seq<Frame>,
               ghost log: Log, ghost p0: Pending, ghost st0: ThreadState, ghost mem0: Mem)
    returns (outcome: Outcome, frames': seq<Frame>, ghost log': Log)
    requires idx < |process.queue| && Deliverable(process.queue[idx], thread.tid, thread.mask)
    requires Progress(log, frames, p0, process.State(), st0, thread.State(), thread.tid, process.dispositions)
    requires AllBenign(log.infos, process.dispositions) && process.mem == WriteAll(mem0, frames)
    modifies process`queue, process`pending, process`mem, thread
    ensures process.mem == WriteAll(mem0, frames')
    ensures |process.queue| == |old(process.queue)| - 1
    ensures outcome.Returns? ==>
              && Progress(log', frames', p0, process.State(), st0, thread.State(), thread.tid, process.dispositions)
              && AllBenign(log'.infos, process.dispositions)
    ensures !outcome.Returns? ==>
              Handles(outcome, frames', log', p0, process.State(), st0, thread.State(), thread.tid, process.dispositions)
  {
    hide Progress, Deliverable, Next, IsFatal, CannotEnter, Enters, AllBenign, HasUserHandler, LogOk, Handles, Written,
         WriteAll;
    ghost var p, st, info := process.State(), thread.State(), process.queue[idx].info;
    LogNext(log, frames, p0, p, st0, st, thread.tid, process.dispositions, idx);
    var frame;
    outcome, frame := DeliverOne(process, thread, idx, writable);
    log' := More(log, process.State(), idx, info, frame, thread.State());
    frames' := frames + if frame.Some? then [frame.value] else [];
    WriteOneMore(mem0, frames, frame);
    if outcome.Panics? {
      PanicHandles(log', frames', p0, process.State(), st0, thread.State(), thread.tid, process.dispositions,
                   log.infos, info, st, writable);
    } else {
      ProgressNext(log, frames, p0, p, st0, st, thread.tid, process.dispositions, idx, frame, thread.State());
      if outcome.Returns? {
        BenignNext(log.infos, info, process.dispositions, st, writable);
      } else {
        ExitHandles(log', frames', p0, process.State(), st0, thread.State(), thread.tid, process.dispositions,
                    log.infos, info);
      }
    }
  }

  lemma ExitHandles(log: Log, frames: seq<Frame>, p: Pending, p': Pending, st: ThreadState, st': ThreadState,
                    tid: nat, actions: Signal -> Action, infos: seq<Info>, info: Info)
    requires Progress(log, frames, p, p', st, st', tid, actions) && log.infos == infos + [info]
    requires AllBenign(infos, actions) && IsFatal(info, actions(info.signo))
    ensures Handles(Exits(info.signo + 128), frames, log, p, p', st, st', tid, actions)
  {
    assert log.infos[..|infos|] == infos;
  }

  lemma PanicHandles(log: Log, frames: seq<Frame>, p: Pending, p': Pending, st: ThreadState, st': ThreadState,
                     tid: nat, actions: Signal -> Action, infos: seq<Info>, info: Info,
                     before: ThreadState, writable: nat -> bool)
    requires LogOk(log, p, p', tid, st.mask) && log.infos == infos + [info]
    requires AllBenign(infos, actions) && CannotEnter(before, actions(info.signo), writable)
    ensures Handles(Panics, frames, log, p, p', st, st', tid, actions)
  {
    assert log.infos[..|infos|] == infos;
  }

  /**
   `handle_signal`: deliver until no queued signal for this thread is unmasked, or the process
   exits. `frames` are the frames written to the user stack; `log` tells what was delivered.
   */
  method HandleSignal(process: Process, thread: Thread, writable: nat -> bool)
    returns (outcome: Outcome, frames: seq<Frame>, ghost log: Log)
    modifies process`queue, process`pending, process`mem, thread
    ensures process.mem == WriteAll(old(process.mem), frames)
    ensures Handles(outcome, frames, log, old(process.State()), process.State(), old(thread.State()), thread.State(),
                    thread.tid, process.dispositions)
    ensures outcome.Returns? ==>
              forall i :: 0 <= i < |process.queue| ==>
                var entry := process.queue[i];
                entry.tid == -1 || Usize(entry.tid) == thread.tid ==> Contains(thread.mask, entry.info.signo)
  {
    hide Progress, Deliverable, AllBenign, Handles, HasSignal, FirstDeliverable, WriteFrame;
    ghost var p0, st0, mem0 := process.State(), thread.State(), process.mem;
    outcome, frames, log := Returns, [], Log([p0], [], [], [st0]);
    NoProgress(p0, st0, thread.tid, process.dispositions);
    NoneYet(process.dispositions);
    var next: Option<nat> := FirstDeliverable(process.queue, thread.tid, thread.mask);
    while next.Some?
      invariant outcome == Returns && AllBenign(log.infos, process.dispositions) && process.mem == WriteAll(mem0, frames)
      invariant Progress(log, frames, p0, process.State(), st0, thread.State(), thread.tid, process.dispositions)
      invariant next.Some? ==> next.value < |process.queue| && Deliverable(process.queue[next.value], thread.tid, thread.mask)
      invariant next.None? ==> !HasSignal(process.queue, thread.tid, thread.mask)
      decreases |process.queue|
    {
      outcome, frames, log := Round(process, thread, next.value, writable, frames, log, p0, st0, mem0);
      if !outcome.Returns? {
        return;
      }
      next := FirstDeliverable(process.queue, thread.tid, thread.mask);
    }
    NothingLeft(process.queue, thread.tid, thread.mask);
    AllDone(log, frames, p0, process.State(), st0, thread.State(), thread.tid, process.dispositions);
  }

  lemma NothingLeft(queue: seq<Entry>, tid: nat, mask: Sigset)
    requires !HasSignal(queue, tid, mask)
    ensures forall i :: 0 <= i < |queue| ==>
              (queue[i].tid == -1 || Usize(queue[i].tid) == tid ==> Contains(mask, queue[i].info.signo))
  {
    hide Contains, Usize;
    forall i | 0 <= i < |queue|
      ensures queue[i].tid == -1 || Usize(queue[i].tid) == tid ==> Contains(mask, queue[i].info.signo)
    {
      assert !Deliverable(queue[i], tid, mask);
    }
  }

  lemma AllDone(log: Log, frames: seq<Frame>, p: Pending, p': Pending, st: ThreadState, st': ThreadState,
                tid: nat, actions: Signal -> Action)
    requires Progress(log, frames, p, p', st, st', tid, actions) && AllBenign(log.infos, actions)
    ensures Handles(Returns, frames, log, p, p', st, st', tid, actions)
  {
  }
}
