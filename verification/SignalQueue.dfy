/** The signals queued for a process and the set of pending signals, over every run. */
module SignalQueue {
  import opened Machine
  import opened Sigsets

  /** The bytes of the union in a `Siginfo`. */
  type SigFields = s: seq<byte> | |s| == 112 witness seq(112, _ => 0)

  datatype Info = Info(signo: Signal, errno: I32, code: I32, fields: SigFields)

  /** A queued signal and the thread it is for, -1 for any thread of the process. */
  datatype Entry = Entry(info: Info, tid: int)

  datatype Pending = Pending(queue: seq<Entry>, bits: Sigset)

  datatype Step = Send(entry: Entry) | Deliver(idx: nat)

  predicate Enabled(p: Pending, step: Step) {
    step.Deliver? ==> step.idx < |p.queue|
  }

  function WithoutAt(queue: seq<Entry>, idx: nat): seq<Entry>
    requires idx < |queue|
  {
    queue[..idx] + queue[idx + 1..]
  }

  /** `send_signal`, and the removal with which `handle_signal` starts a delivery. */
  function Next(p: Pending, step: Step): Pending
    requires Enabled(p, step)
  {
    match step
    case Send(entry) =>
      if IsStandard(entry.info.signo) && Contains(p.bits, entry.info.signo) then p
      else Pending(p.queue + [entry], Add(p.bits, entry.info.signo))
    case Deliver(idx) =>
      Pending(WithoutAt(p.queue, idx), Remove(p.bits, p.queue[idx].info.signo))
  }

  ghost function Count(queue: seq<Entry>, s: Signal): nat {
    if queue == [] then 0
    else Count(queue[..|queue| - 1], s) + if queue[|queue| - 1].info.signo == s then 1 else 0
  }

  lemma {:induction false} CountWithout(queue: seq<Entry>, idx: nat, s: Signal)
    requires idx < |queue|
    ensures Count(WithoutAt(queue, idx), s) == Count(queue, s) - if queue[idx].info.signo == s then 1 else 0
    decreases |queue|
  {
    var last := |queue| - 1;
    if idx == last {
      assert WithoutAt(queue, idx) == queue[..last];
    } else {
      CountWithout(queue[..last], idx, s);
      assert WithoutAt(queue, idx)[..last - 1] == WithoutAt(queue[..last], idx);
    }
  }

  /** The pending bit and the queued entries of one signal agree. */
  ghost predicate PendingAt(p: Pending, s: Signal) {
    && (Contains(p.bits, s) ==> Count(p.queue, s) > 0)
    && (IsStandard(s) ==> Count(p.queue, s) == if Contains(p.bits, s) then 1 else 0)
  }

  ghost predicate PendingOk(p: Pending) {
    forall s: Signal :: PendingAt(p, s)
  }

  lemma StepKeepsPendingAt(p: Pending, step: Step, s: Signal)
    requires PendingAt(p, s) && Enabled(p, step)
    ensures PendingAt(Next(p, step), s)
  {
    hide Contains, Add, Remove;
    match step {
      case Send(entry) =>
        AddedAt(p.bits, entry.info.signo, s);
        assert (p.queue + [entry])[..|p.queue|] == p.queue;
      case Deliver(idx) =>
        RemovedAt(p.bits, p.queue[idx].info.signo, s);
        CountWithout(p.queue, idx, s);
    }
  }

  lemma StepKeepsPending(p: Pending, step: Step)
    requires PendingOk(p) && Enabled(p, step)
    ensures PendingOk(Next(p, step))
  {
    hide PendingAt, Next;
    forall s: Signal ensures PendingAt(Next(p, step), s) {
      assert PendingAt(p, s);
      StepKeepsPendingAt(p, step, s);
    }
  }

  ghost predicate IsRun(trace: seq<Pending>, steps: seq<Step>) {
    && |trace| == |steps| + 1 && trace[0] == Pending([], 0)
    && forall i :: 0 <= i < |steps| ==> Enabled(trace[i], steps[i]) && trace[i + 1] == Next(trace[i], steps[i])
  }

  /** In every reachable state bits and queue agree; a standard signal is queued once at most. */
  lemma {:induction false} RunKeepsPending(trace: seq<Pending>, steps: seq<Step>, i: nat)
    requires IsRun(trace, steps) && i < |trace|
    ensures PendingOk(trace[i])
  {
    if i == 0 {
      forall s: Signal ensures PendingAt(trace[0], s) {
        EmptyHasNone(s);
      }
    } else {
      RunKeepsPending(trace, steps, i - 1);
      StepKeepsPending(trace[i - 1], steps[i - 1]);
    }
  }

  /** The last of the first `i` steps that is about `s` sent it. */
  ghost predicate LastWasSent(trace: seq<Pending>, steps: seq<Step>, i: nat, s: Signal)
    requires IsRun(trace, steps) && i < |trace|
  {
    i > 0 &&
    match steps[i - 1]
    case Send(entry) => entry.info.signo == s || LastWasSent(trace, steps, i - 1, s)
    case Deliver(idx) => trace[i - 1].queue[idx].info.signo != s && LastWasSent(trace, steps, i - 1, s)
  }

  /** What a pending bit means exactly, for standard and real-time signals alike. */
  lemma {:induction false} PendingIsLastSent(trace: seq<Pending>, steps: seq<Step>, i: nat, s: Signal)
    requires IsRun(trace, steps) && i < |trace|
    ensures Contains(trace[i].bits, s) <==> LastWasSent(trace, steps, i, s)
  {
    hide Contains, Add, Remove;
    if i == 0 {
      EmptyHasNone(s);
    } else {
      PendingIsLastSent(trace, steps, i - 1, s);
      var p := trace[i - 1];
      match steps[i - 1] {
        case Send(entry) => AddedAt(p.bits, entry.info.signo, s);
        case Deliver(idx) => RemovedAt(p.bits, p.queue[idx].info.signo, s);
      }
    }
  }

  // ------------------------------------------------------------------ queued in order

  /** `sub` is `full` in order with some entries left out. */
  ghost predicate IsSubsequence(sub: seq<Entry>, full: seq<Entry>) {
    if sub == [] then true
    else if full == [] then false
    else
      var s, f := |sub| - 1, |full| - 1;
      (sub[s] == full[f] && IsSubsequence(sub[..s], full[..f])) || IsSubsequence(sub, full[..f])
  }

  lemma {:induction false} SubsequenceWithout(sub: seq<Entry>, full: seq<Entry>, idx: nat)
    requires IsSubsequence(sub, full) && idx < |sub|
    ensures IsSubsequence(WithoutAt(sub, idx), full)
    decreases |full|
  {
    var s, f := |sub| - 1, |full| - 1;
    if sub[s] == full[f] && IsSubsequence(sub[..s], full[..f]) {
      if idx == s {
        assert WithoutAt(sub, idx) == sub[..s];
        SubsequenceLonger(sub[..s], full[..f], full[f]);
        assert full[..f] + [full[f]] == full;
      } else {
        SubsequenceWithout(sub[..s], full[..f], idx);
        assert WithoutAt(sub, idx)[..s - 1] == WithoutAt(sub[..s], idx);
      }
    } else {
      SubsequenceWithout(sub, full[..f], idx);
    }
  }

  lemma SubsequenceLonger(sub: seq<Entry>, full: seq<Entry>, entry: Entry)
    requires IsSubsequence(sub, full)
    ensures IsSubsequence(sub, full + [entry])
  {
    assert (full + [entry])[..|full|] == full;
  }

  /** The entries sent, in order. */
  ghost function Sent(steps: seq<Step>): seq<Entry> {
    if steps == [] then []
    else
      var last := steps[|steps| - 1];
      Sent(steps[..|steps| - 1]) + if last.Send? then [last.entry] else []
  }

  /** Signals queue up in the order in which they were sent, and none appears that was not. */
  lemma {:induction false} QueuedInOrder(trace: seq<Pending>, steps: seq<Step>, i: nat)
    requires IsRun(trace, steps) && i < |trace|
    ensures IsSubsequence(trace[i].queue, Sent(steps[..i]))
  {
    hide Next, IsSubsequence, Sent;
    if i == 0 {
      assert IsSubsequence([], Sent(steps[..0])) by {
        NothingQueued(Sent(steps[..0]));
      }
    } else {
      QueuedInOrder(trace, steps, i - 1);
      SentNext(steps, i);
      StepKeepsOrder(trace[i - 1], steps[i - 1], Sent(steps[..i - 1]));
    }
  }

  lemma NothingQueued(full: seq<Entry>)
    ensures IsSubsequence([], full)
  {
  }

  lemma SentNext(steps: seq<Step>, i: nat)
    requires 0 < i <= |steps|
    ensures Sent(steps[..i]) == Sent(steps[..i - 1]) + if steps[i - 1].Send? then [steps[i - 1].entry] else []
  {
    assert steps[..i][..i - 1] == steps[..i - 1];
  }

  lemma StepKeepsOrder(p: Pending, step: Step, sent: seq<Entry>)
    requires Enabled(p, step) && IsSubsequence(p.queue, sent)
    ensures IsSubsequence(Next(p, step).queue, sent + if step.Send? then [step.entry] else [])
  {
    hide Contains, Add, Remove, IsStandard;
    match step {
      case Send(entry) =>
        SubsequenceLonger(p.queue, sent, entry);
        assert (p.queue + [entry])[..|p.queue|] == p.queue && (sent + [entry])[..|sent|] == sent;
      case Deliver(idx) =>
        SubsequenceWithout(p.queue, sent, idx);
        assert sent + [] == sent;
    }
  }

  /** Of a signal below 32 at most one entry is ever queued. */
  lemma StandardQueuedOnce(trace: seq<Pending>, steps: seq<Step>, i: nat, s: Signal)
    requires IsRun(trace, steps) && i < |trace| && s < 32
    ensures Count(trace[i].queue, s) <= 1
  {
    hide Next, Enabled, Contains;
    RunKeepsPending(trace, steps, i);
    assert PendingAt(trace[i], s);
  }

  /** Any signal from 32 on, sent twice and delivered once, is queued, but its bit is clear. */
  lemma RealtimeBitLost(s: Signal) returns (trace: seq<Pending>, steps: seq<Step>)
    requires s >= 32
    ensures IsRun(trace, steps)
    ensures var p := trace[|steps|]; |p.queue| == 1 && p.queue[0].info.signo == s && !Contains(p.bits, s)
  {
    hide Contains, Add, Remove;
    var e := Entry(Info(s, 0, 0, seq(112, _ => 0)), -1);
    steps := [Send(e), Send(e), Deliver(0)];
    var p1 := Pending([e], Add(0, s));
    var p2 := Pending([e, e], Add(Add(0, s), s));
    var p3 := Pending([e], Remove(Add(Add(0, s), s), s));
    trace := [Pending([], 0), p1, p2, p3];
    assert !IsStandard(s);
    assert Next(p2, Deliver(0)) == p3;
    RemovedAt(Add(Add(0, s), s), s, s);
  }
}
