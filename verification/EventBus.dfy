/** The event word of a process or device and the callbacks that wait for it to change. */
module EventBus {
  import opened Machine

  type Event = bv32

  const CHILD_PROCESS_QUIT: Event := 0x800
  const RECEIVE_SIGNAL: Event := 0x1000

  /** `Masked` is left by `EventBusFuture`; `Always` by a sleeper, which any change wakes. */
  datatype Callback = Masked(mask: Event, waker: nat) | Always(waker: nat)

  /** The bus, and the wakers called so far. */
  datatype Bus = Bus(event: Event, callbacks: seq<Callback>, woken: seq<nat>)

  predicate Intersects(event: Event, mask: Event) {
    event & mask != 0
  }

  /** The callback calls its waker and asks to be dropped. */
  predicate Fires(cb: Callback, event: Event) {
    cb.Masked? ==> Intersects(event, cb.mask)
  }

  function Kept(cbs: seq<Callback>, event: Event): seq<Callback> {
    if cbs == [] then []
    else Kept(cbs[..|cbs| - 1], event) + if Fires(cbs[|cbs| - 1], event) then [] else [cbs[|cbs| - 1]]
  }

  function Fired(cbs: seq<Callback>, event: Event): seq<nat> {
    if cbs == [] then []
    else Fired(cbs[..|cbs| - 1], event) + if Fires(cbs[|cbs| - 1], event) then [cbs[|cbs| - 1].waker] else []
  }

  function NewEvent(event: Event, reset: Event, set_: Event): Event {
    (event & !reset) | set_
  }

  /** `change`: callbacks run only if the event word changes. */
  function Changed(bus: Bus, reset: Event, set_: Event): Bus {
    var event := NewEvent(bus.event, reset, set_);
    if event == bus.event then bus
    else Bus(event, Kept(bus.callbacks, event), bus.woken + Fired(bus.callbacks, event))
  }

  function Subscribed(bus: Bus, cb: Callback): Bus {
    bus.(callbacks := bus.callbacks + [cb])
  }

  /** `EventBusFuture::poll`: ready if a masked event is there, otherwise subscribe. */
  function Polled(bus: Bus, mask: Event, waker: nat): Bus {
    if Intersects(bus.event, mask) then bus else Subscribed(bus, Masked(mask, waker))
  }

  // ------------------------------------------------------------------- the event word

  predicate IsFlag(f: Event) {
    f != 0 && f & (f - 1) == 0
  }

  /** After a change a flag is up exactly if the change sets it, or it was up and the change does not clear it. */
  lemma ChangedBits(bus: Bus, reset: Event, set_: Event, f: Event)
    requires IsFlag(f)
    ensures Intersects(Changed(bus, reset, set_).event, f) <==>
            Intersects(set_, f) || (Intersects(bus.event, f) && !Intersects(reset, f))
  {
    hide NewEvent, IsFlag, Changed, Intersects;
    NewBits(bus.event, reset, set_, f);
    ChangedWord(bus, reset, set_);
  }

  lemma ChangedWord(bus: Bus, reset: Event, set_: Event)
    ensures Changed(bus, reset, set_).event == NewEvent(bus.event, reset, set_)
  {
    hide NewEvent, Kept, Fired;
  }

  /** Taking down the flag of a child keeps that of a signal, and the other way round. */
  lemma FlagsAreApart(bus: Bus)
    ensures Intersects(Changed(bus, CHILD_PROCESS_QUIT, 0).event, RECEIVE_SIGNAL) <==> Intersects(bus.event, RECEIVE_SIGNAL)
    ensures Intersects(Changed(bus, RECEIVE_SIGNAL, 0).event, CHILD_PROCESS_QUIT) <==> Intersects(bus.event, CHILD_PROCESS_QUIT)
    ensures Intersects(Changed(bus, 0, RECEIVE_SIGNAL).event, RECEIVE_SIGNAL)
  {
    hide Changed;
    TwoFlags();
    ChangedBits(bus, CHILD_PROCESS_QUIT, 0, RECEIVE_SIGNAL);
    ChangedBits(bus, RECEIVE_SIGNAL, 0, CHILD_PROCESS_QUIT);
    ChangedBits(bus, 0, RECEIVE_SIGNAL, RECEIVE_SIGNAL);
  }

  lemma TwoFlags()
    ensures IsFlag(CHILD_PROCESS_QUIT) && IsFlag(RECEIVE_SIGNAL) && CHILD_PROCESS_QUIT & RECEIVE_SIGNAL == 0
  {
  }

  lemma NewBits(event: Event, reset: Event, set_: Event, f: Event)
    requires IsFlag(f)
    ensures Intersects(NewEvent(event, reset, set_), f) <==>
            Intersects(set_, f) || (Intersects(event, f) && !Intersects(reset, f))
  {
    hide NewEvent, IsFlag;
    AllOrNone(set_, f);
    AllOrNone(reset, f);
    if set_ & f != 0 {
      SetBit(event, reset, set_, f);
    } else if reset & f != 0 {
      ClearedBit(event, reset, set_, f);
    } else {
      KeptBit(event, reset, set_, f);
    }
  }

  lemma AllOrNone(x: Event, f: Event)
    requires IsFlag(f)
    ensures f != 0 && (x & f == 0 || x & f == f)
  {
  }

  lemma SetBit(event: Event, reset: Event, set_: Event, f: Event)
    requires set_ & f == f
    ensures NewEvent(event, reset, set_) & f == f
  {
  }

  lemma ClearedBit(event: Event, reset: Event, set_: Event, f: Event)
    requires set_ & f == 0 && reset & f == f
    ensures NewEvent(event, reset, set_) & f == 0
  {
  }

  lemma KeptBit(event: Event, reset: Event, set_: Event, f: Event)
    requires set_ & f == 0 && reset & f == 0
    ensures NewEvent(event, reset, set_) & f == event & f
  {
  }

  // ------------------------------------------------------------------- no lost event
  // ------------------------------------------------------------------- no lost event

  /** No waiting callback would fire on the current event. */
  ghost predicate Quiet(bus: Bus) {
    forall i :: 0 <= i < |bus.callbacks| && bus.callbacks[i].Masked? ==> !Fires(bus.callbacks[i], bus.event)
  }

  lemma {:induction false} KeptIsQuiet(cbs: seq<Callback>, event: Event, i: nat)
    requires i < |Kept(cbs, event)|
    ensures !Fires(Kept(cbs, event)[i], event)
  {
    hide Fires;
    if i < |Kept(cbs[..|cbs| - 1], event)| {
      KeptIsQuiet(cbs[..|cbs| - 1], event, i);
    }
  }

  lemma ChangedIsQuiet(bus: Bus, reset: Event, set_: Event)
    requires Quiet(bus)
    ensures Quiet(Changed(bus, reset, set_))
  {
    hide Fires, Kept, Fired, NewEvent;
    var bus' := Changed(bus, reset, set_);
    if bus' != bus {
      forall i | 0 <= i < |bus'.callbacks| ensures !Fires(bus'.callbacks[i], bus'.event) {
        KeptIsQuiet(bus.callbacks, bus'.event, i);
      }
    }
  }

  lemma PolledIsQuiet(bus: Bus, mask: Event, waker: nat)
    requires Quiet(bus)
    ensures Quiet(Polled(bus, mask, waker))
  {
    hide Intersects;
  }

  // ------------------------------------------------------------------ each waker once

  ghost function Wakers(cbs: seq<Callback>): multiset<nat> {
    if cbs == [] then multiset{} else Wakers(cbs[..|cbs| - 1]) + multiset{cbs[|cbs| - 1].waker}
  }

  /** Every waker handed to the bus, called already or still waiting. */
  ghost function AllWakers(bus: Bus): multiset<nat> {
    Wakers(bus.callbacks) + multiset(bus.woken)
  }

  lemma {:induction false} KeptOrFired(cbs: seq<Callback>, event: Event)
    ensures Wakers(Kept(cbs, event)) + multiset(Fired(cbs, event)) == Wakers(cbs)
  {
    hide Fires;
    if cbs != [] {
      var rest, last := cbs[..|cbs| - 1], cbs[|cbs| - 1];
      KeptOrFired(rest, event);
      var kept := Kept(cbs, event);
      if Fires(last, event) {
        assert kept == Kept(rest, event);
      } else {
        assert kept[..|kept| - 1] == Kept(rest, event);
        assert Fired(cbs, event) == Fired(rest, event);
      }
    }
  }

  /** A change neither drops nor repeats a waker: each waiting one waits on or is called once. */
  lemma ChangeConservesWakers(bus: Bus, reset: Event, set_: Event)
    ensures AllWakers(Changed(bus, reset, set_)) == AllWakers(bus)
  {
    hide Fires, NewEvent, Kept, Fired, Wakers;
    KeptOrFired(bus.callbacks, NewEvent(bus.event, reset, set_));
  }

  lemma PollRegisters(bus: Bus, mask: Event, waker: nat)
    ensures AllWakers(Polled(bus, mask, waker))
         == AllWakers(bus) + if Intersects(bus.event, mask) then multiset{} else multiset{waker}
  {
    hide Intersects;
    assert (bus.callbacks + [Masked(mask, waker)])[..|bus.callbacks|] == bus.callbacks;
  }

  /**
   A change keeps the callbacks that wait for other events and calls the wakers of all others: a waker
   is called only for an event of its mask, or if it sleeps on any change.
   */
  lemma WokenForReason(bus: Bus, reset: Event, set_: Event)
    ensures var bus' := Changed(bus, reset, set_);
            && bus.woken <= bus'.woken && (bus'.event == bus.event ==> bus' == bus)
            && (bus' != bus ==> forall i :: 0 <= i < |bus'.callbacks| ==> WaitsForOther(bus'.callbacks[i], bus'.event))
            && forall k :: |bus.woken| <= k < |bus'.woken| ==> HasReason(bus.callbacks, bus'.event, bus'.woken[k])
  {
    hide NewEvent, Kept, Fires, Fired, HasReason, WaitsForOther;
    var event := NewEvent(bus.event, reset, set_);
    forall k | 0 <= k < |Fired(bus.callbacks, event)| ensures HasReason(bus.callbacks, event, Fired(bus.callbacks, event)[k]) {
      FiredHasReason(bus.callbacks, event, k);
    }
    forall i | 0 <= i < |Kept(bus.callbacks, event)|
      ensures WaitsForOther(Kept(bus.callbacks, event)[i], event)
    {
      KeptIsQuiet(bus.callbacks, event, i);
      NotFiring(Kept(bus.callbacks, event)[i], event);
    }
  }

  predicate WaitsForOther(cb: Callback, event: Event) {
    cb.Masked? && event & cb.mask == 0
  }

  lemma NotFiring(cb: Callback, event: Event)
    requires !Fires(cb, event)
    ensures WaitsForOther(cb, event)
  {
  }

  ghost predicate HasReason(cbs: seq<Callback>, event: Event, waker: nat) {
    exists i :: 0 <= i < |cbs| && cbs[i].waker == waker && (cbs[i].Masked? ==> event & cbs[i].mask != 0)
  }

  lemma {:induction false} FiredHasReason(cbs: seq<Callback>, event: Event, k: nat)
    requires k < |Fired(cbs, event)|
    ensures HasReason(cbs, event, Fired(cbs, event)[k])
  {
    var n := |cbs| - 1;
    if k < |Fired(cbs[..n], event)| {
      FiredHasReason(cbs[..n], event, k);
      var i :| 0 <= i < n && cbs[i].waker == Fired(cbs, event)[k] && (cbs[i].Masked? ==> event & cbs[i].mask != 0);
    } else {
      assert Fires(cbs[n], event) && cbs[n].waker == Fired(cbs, event)[k];
    }
  }

  datatype Step = Change(reset: Event, set_: Event) | Poll(mask: Event, waker: nat) | Sleep(waker: nat)

  function Next(bus: Bus, step: Step): Bus {
    match step
    case Change(reset, set_) => Changed(bus, reset, set_)
    case Poll(mask, waker) => Polled(bus, mask, waker)
    case Sleep(waker) => Subscribed(bus, Always(waker))
  }

  ghost predicate IsRun(trace: seq<Bus>, steps: seq<Step>) {
    && |trace| == |steps| + 1 && trace[0] == Bus(0, [], [])
    && forall i :: 0 <= i < |steps| ==> trace[i + 1] == Next(trace[i], steps[i])
  }

  /** The wakers that the first `i` steps gave to the bus. */
  ghost function Registered(trace: seq<Bus>, steps: seq<Step>, i: nat): multiset<nat>
    requires IsRun(trace, steps) && i < |trace|
  {
    if i == 0 then multiset{} else Registered(trace, steps, i - 1) + Given(trace[i - 1], steps[i - 1])
  }

  /** The waker a step leaves on the bus, if any. */
  ghost function Given(bus: Bus, step: Step): multiset<nat> {
    match step
    case Change(_, _) => multiset{}
    case Poll(mask, waker) => if Intersects(bus.event, mask) then multiset{} else multiset{waker}
    case Sleep(waker) => multiset{waker}
  }

  /** Over every run: no future sleeps on an event that is there, and no waker is lost or called twice. */
  lemma {:induction false} RunIsQuietAndFair(trace: seq<Bus>, steps: seq<Step>, i: nat)
    requires IsRun(trace, steps) && i < |trace|
    ensures Quiet(trace[i]) && AllWakers(trace[i]) == Registered(trace, steps, i)
  {
    hide AllWakers, Next, Given, Fires;
    if i == 0 {
      NoWakers();
    } else {
      RunIsQuietAndFair(trace, steps, i - 1);
      StepIsQuietAndFair(trace[i - 1], steps[i - 1]);
    }
  }

  lemma NoWakers()
    ensures AllWakers(Bus(0, [], [])) == multiset{}
  {
  }

  lemma StepIsQuietAndFair(bus: Bus, step: Step)
    requires Quiet(bus)
    ensures Quiet(Next(bus, step))
    ensures AllWakers(Next(bus, step)) == AllWakers(bus) + Given(bus, step)
  {
    hide Quiet, AllWakers, Intersects, Changed, Polled;
    match step {
      case Change(reset, set_) =>
        ChangedIsQuiet(bus, reset, set_);
        ChangeConservesWakers(bus, reset, set_);
      case Poll(mask, waker) =>
        PolledIsQuiet(bus, mask, waker);
        PollRegisters(bus, mask, waker);
      case Sleep(waker) =>
        SleepRegisters(bus, waker);
    }
  }

  lemma SleepRegisters(bus: Bus, waker: nat)
    requires Quiet(bus)
    ensures Quiet(Subscribed(bus, Always(waker)))
    ensures AllWakers(Subscribed(bus, Always(waker))) == AllWakers(bus) + multiset{waker}
  {
    hide Intersects;
    assert (bus.callbacks + [Always(waker)])[..|bus.callbacks|] == bus.callbacks;
  }

  /** The step takes the flag down. */
  predicate Clears(step: Step, f: Event) {
    step.Change? && Intersects(step.reset, f) && !Intersects(step.set_, f)
  }

  predicate Sets(step: Step, f: Event) {
    step.Change? && Intersects(step.set_, f)
  }

  /** Some step has set the flag and none since has cleared it. */
  ghost predicate LastSet(steps: seq<Step>, i: nat, f: Event)
    requires i <= |steps|
  {
    exists k :: 0 <= k < i && Sets(steps[k], f) && forall m :: k < m < i ==> !Clears(steps[m], f)
  }

  /** Over every run a flag is up exactly if its last change was a set. */
  lemma {:induction false} FlagIsLastChange(trace: seq<Bus>, steps: seq<Step>, i: nat, f: Event)
    requires IsRun(trace, steps) && i < |trace| && IsFlag(f)
    ensures Intersects(trace[i].event, f) <==> LastSet(steps, i, f)
  {
    hide IsFlag, Intersects, Next, Sets, Clears;
    if i == 0 {
      NoFlags(f);
    } else {
      FlagIsLastChange(trace, steps, i - 1, f);
      StepOfFlag(trace[i - 1], steps[i - 1], f);
      LastSetStep(steps, i, f);
    }
  }

  lemma NoFlags(f: Event)
    ensures !Intersects(0, f)
  {
  }

  lemma StepOfFlag(bus: Bus, step: Step, f: Event)
    requires IsFlag(f)
    ensures Intersects(Next(bus, step).event, f) <==> Sets(step, f) || (Intersects(bus.event, f) && !Clears(step, f))
  {
    hide IsFlag, Intersects, Changed;
    if step.Change? {
      ChangedBits(bus, step.reset, step.set_, f);
    }
  }

  lemma LastSetStep(steps: seq<Step>, i: nat, f: Event)
    requires 0 < i <= |steps|
    ensures LastSet(steps, i, f) <==> Sets(steps[i - 1], f) || (LastSet(steps, i - 1, f) && !Clears(steps[i - 1], f))
  {
    hide Intersects, Sets, Clears;
    if LastSet(steps, i - 1, f) && !Clears(steps[i - 1], f) {
      var k :| 0 <= k < i - 1 && Sets(steps[k], f) && forall m :: k < m < i - 1 ==> !Clears(steps[m], f);
      assert forall m :: k < m < i ==> !Clears(steps[m], f);
    }
  }

  // ------------------------------------------------------------------- the operations

  class SharedBus {
    var event: Event
    var callbacks: seq<Callback>
    var woken: seq<nat>

    constructor ()
      ensures State() == Bus(0, [], [])
    {
      event, callbacks, woken := 0, [], [];
    }

    ghost function State(): Bus
      reads this
    {
      Bus(event, callbacks, woken)
    }

    method ChangeEvent(reset: Event, set_: Event)
      modifies this
      ensures State() == Changed(old(State()), reset, set_)
    {
      hide Fires;
      var orig := event;
      event := NewEvent(event, reset, set_);
      if event != orig {
        var retained: seq<Callback> := [];
        for i := 0 to |callbacks|
          invariant callbacks == old(callbacks) && event == NewEvent(orig, reset, set_)
          invariant retained == Kept(callbacks[..i], event) && woken == old(woken) + Fired(callbacks[..i], event)
        {
          assert callbacks[..i + 1][..i] == callbacks[..i];
          if Fires(callbacks[i], event) {
            woken := woken + [callbacks[i].waker];
          } else {
            retained := retained + [callbacks[i]];
          }
        }
        assert callbacks[..|callbacks|] == callbacks;
        callbacks := retained;
      }
    }

    method Set(set_: Event)
      modifies this
      ensures State() == Changed(old(State()), 0, set_)
    {
      ChangeEvent(0, set_);
    }

    method Clear(reset: Event)
      modifies this
      ensures State() == Changed(old(State()), reset, 0)
    {
      ChangeEvent(reset, 0);
    }

    method Subscribe(cb: Callback)
      modifies this`callbacks
      ensures State() == Subscribed(old(State()), cb)
    {
      callbacks := callbacks + [cb];
    }

    /** Ready with the event word, or pending with a callback left behind. */
    method PollFor(mask: Event, waker: nat) returns (ready: Option<Event>)
      modifies this`callbacks
      ensures State() == Polled(old(State()), mask, waker)
      ensures ready == if Intersects(event, mask) then Some(event) else None
    {
      hide Intersects;
      if Intersects(event, mask) {
        return Some(event);
      }
      Subscribe(Masked(mask, waker));
      ready := None;
    }
  }
}
