/** The kernel timer: wakers kept by deadline, bumped to the next free nanosecond on collision. */
module Timers {

  /** A waker called by `expire(now)`. */
  datatype Firing = Firing(waker: nat, now: nat)

  datatype TimerState = TimerState(events: map<nat, nat>, fired: seq<Firing>)

  /** `key` is the first free nanosecond at or after `deadline`. */
  ghost predicate IsFirstFree(events: map<nat, nat>, deadline: nat, key: nat) {
    deadline <= key && key !in events && forall k :: deadline <= k < key ==> k in events
  }

  /** `keys` lists, in ascending order, exactly the keys that are due. */
  ghost predicate IsDue(events: map<nat, nat>, now: nat, keys: seq<nat>) {
    && (forall i, j :: 0 <= i < j < |keys| ==> keys[i] < keys[j])
    && (forall k :: k in keys <==> k in events && k <= now)
  }

  function Firings(events: map<nat, nat>, now: nat, keys: seq<nat>): (r: seq<Firing>)
    requires forall k :: k in keys ==> k in events
    ensures |r| == |keys|
  {
    seq(|keys|, i requires 0 <= i < |keys| => Firing(events[keys[i]], now))
  }

  function After(events: map<nat, nat>, now: nat): map<nat, nat> {
    map k | k in events && k > now :: events[k]
  }

  /** Consecutive keys need as many entries: the bump is at most the number of live timers. */
  lemma {:induction false} RangeFits(keys: set<nat>, lo: nat, hi: nat)
    requires lo <= hi && forall k :: lo <= k < hi ==> k in keys
    ensures hi - lo <= |keys|
    decreases hi
  {
    if lo < hi {
      RangeFits(keys - {hi - 1}, lo, hi - 1);
    }
  }

  lemma BumpIsBounded(events: map<nat, nat>, deadline: nat, key: nat)
    requires IsFirstFree(events, deadline, key)
    ensures key <= deadline + |events|
  {
    RangeFits(events.Keys, deadline, key);
    assert |events.Keys| == |events|;
  }

  // ---------------------------------------------------------------------- operations

  class Timer {
    var events: map<nat, nat>
    var fired: seq<Firing>

    constructor ()
      ensures State() == TimerState(map[], [])
    {
      events, fired := map[], [];
    }

    ghost function State(): TimerState
      reads this
    {
      TimerState(events, fired)
    }

    method Add(deadline: nat, waker: nat) returns (key: nat)
      modifies this`events
      ensures IsFirstFree(old(events), deadline, key) && events == old(events)[key := waker]
      ensures key <= deadline + |old(events)|
    {
      key := deadline;
      while key in events
        invariant events == old(events) && deadline <= key && forall k :: deadline <= k < key ==> k in events
        decreases deadline + |events| - key
      {
        RangeFits(events.Keys, deadline, key + 1);
        assert |events.Keys| == |events|;
        key := key + 1;
      }
      BumpIsBounded(events, deadline, key);
      events := events[key := waker];
    }

    /** Call and drop every timer that is due, earliest first. */
    method Expire(now: nat) returns (ghost keys: seq<nat>)
      modifies this
      ensures IsDue(old(events), now, keys)
      ensures events == After(old(events), now) && fired == old(fired) + Firings(old(events), now, keys)
    {
      hide Firings, After, IsDue, IsFirst;
      keys := [];
      NothingExpired(events, now);
      while events != map[]
        invariant Expiring(old(events), now, keys, events)
        invariant fired == old(fired) + Firings(old(events), now, keys)
        decreases |events|
      {
        ghost var least := FirstExists(events);
        var first: nat :| IsFirst(events, first);
        FirstIsKey(events, first);
        if first > now {
          NothingDue(events, first, now);
          ExpiringDone(old(events), now, keys, events);
          return;
        }
        ExpiringNext(old(events), now, keys, events, first);
        FiringsNext(old(events), now, keys, first);
        fired := fired + [Firing(events[first], now)];
        keys := keys + [first];
        events := events - {first};
      }
      ExpiringDone(old(events), now, keys, events);
    }
  }

  /** Everything below the remaining keys has been taken, in order. */
  ghost predicate Expiring(events: map<nat, nat>, now: nat, keys: seq<nat>, left: map<nat, nat>) {
    && (forall i, j :: 0 <= i < j < |keys| ==> keys[i] < keys[j])
    && (forall k :: k in keys ==> k in events && k <= now && k !in left)
    && (forall k :: k in events <==> k in keys || k in left)
    && (forall k :: k in left ==> left[k] == events[k])
    && (forall i, k :: 0 <= i < |keys| && k in left ==> keys[i] < k)
  }

  lemma FirstIsKey(events: map<nat, nat>, first: nat)
    requires IsFirst(events, first)
    ensures first in events
  {
  }

  lemma NothingDue(events: map<nat, nat>, first: nat, now: nat)
    requires IsFirst(events, first) && first > now
    ensures forall k :: k in events ==> k > now
  {
  }

  lemma NothingExpired(events: map<nat, nat>, now: nat)
    ensures Expiring(events, now, [], events) && Firings(events, now, []) == []
  {
  }

  lemma ExpiringNext(events: map<nat, nat>, now: nat, keys: seq<nat>, left: map<nat, nat>, first: nat)
    requires Expiring(events, now, keys, left) && IsFirst(left, first) && first <= now
    ensures Expiring(events, now, keys + [first], left - {first})
  {
    var keys', left' := keys + [first], left - {first};
    forall i, j | 0 <= i < j < |keys'| ensures keys'[i] < keys'[j] {
    }
    forall k ensures k in events <==> k in keys' || k in left' {
      assert k in keys' <==> k in keys || k == first;
    }
  }

  lemma FiringsNext(events: map<nat, nat>, now: nat, keys: seq<nat>, first: nat)
    requires (forall k :: k in keys ==> k in events) && first in events
    ensures Firings(events, now, keys + [first]) == Firings(events, now, keys) + [Firing(events[first], now)]
  {
  }

  lemma ExpiringDone(events: map<nat, nat>, now: nat, keys: seq<nat>, left: map<nat, nat>)
    requires Expiring(events, now, keys, left) && forall k :: k in left ==> k > now
    ensures IsDue(events, now, keys) && left == After(events, now)
  {
  }

  lemma {:induction false} FirstExists(events: map<nat, nat>) returns (first: nat)
    requires events != map[]
    ensures IsFirst(events, first)
    decreases |events|
  {
    first :| first in events;
    var rest := events - {first};
    if rest != map[] {
      var least := FirstExists(rest);
      FirstOfTwo(events, first, least);
      first := if least < first then least else first;
    } else {
      assert forall k :: k in events ==> k == first || k in rest;
    }
  }

  lemma FirstOfTwo(events: map<nat, nat>, key: nat, least: nat)
    requires key in events && IsFirst(events - {key}, least)
    ensures IsFirst(events, if least < key then least else key)
  {
    var rest := events - {key};
    forall k | k in events ensures (if least < key then least else key) <= k {
      assert k == key || k in rest;
    }
  }

  predicate IsFirst(events: map<nat, nat>, key: nat) {
    key in events && forall k :: k in events ==> key <= k
  }

  // ------------------------------------------------------------------------ all runs

  /** What a caller asked for, and how many timers were live then. */
  datatype Request = Request(deadline: nat, live: nat)

  /** The timer and all requests so far; the waker of a request is its index. */
  datatype State = State(timer: TimerState, requests: seq<Request>)

  datatype Step = Adds(deadline: nat, key: nat) | Expires(now: nat, keys: seq<nat>)

  ghost predicate Next(s: State, step: Step, s': State) {
    match step
    case Adds(deadline, key) =>
      && IsFirstFree(s.timer.events, deadline, key)
      && s'.timer == TimerState(s.timer.events[key := |s.requests|], s.timer.fired)
      && s'.requests == s.requests + [Request(deadline, |s.timer.events|)]
    case Expires(now, keys) =>
      && IsDue(s.timer.events, now, keys) && s'.requests == s.requests
      && s'.timer == TimerState(After(s.timer.events, now), s.timer.fired + Firings(s.timer.events, now, keys))
  }

  /** A live entry: its waker is known, and its key is between the deadline and the bound of the bump. */
  predicate EntryOk(requests: seq<Request>, key: nat, waker: nat) {
    waker < |requests| && requests[waker].deadline <= key <= requests[waker].deadline + requests[waker].live
  }

  predicate FiringOk(requests: seq<Request>, f: Firing) {
    f.waker < |requests| && requests[f.waker].deadline <= f.now
  }

  ghost predicate IsLive(t: TimerState, waker: nat) {
    exists k :: k in t.events && t.events[k] == waker
  }

  ghost predicate HasFired(t: TimerState, waker: nat) {
    exists i :: 0 <= i < |t.fired| && t.fired[i].waker == waker
  }

  /** Each request is live under one key or has fired once, not both. */
  ghost predicate Inv(s: State) {
    var t := s.timer;
    && (forall k :: k in t.events ==> EntryOk(s.requests, k, t.events[k]) && !HasFired(t, t.events[k]))
    && (forall j, k :: j in t.events && k in t.events && t.events[j] == t.events[k] ==> j == k)
    && (forall i :: 0 <= i < |t.fired| ==> FiringOk(s.requests, t.fired[i]))
    && (forall i, j :: 0 <= i < j < |t.fired| ==> t.fired[i].waker != t.fired[j].waker)
    && (forall w :: 0 <= w < |s.requests| ==> IsLive(t, w) || HasFired(t, w))
  }

  lemma AddsKeepsInv(s: State, deadline: nat, key: nat, s': State)
    requires Inv(s) && Next(s, Adds(deadline, key), s')
    ensures Inv(s')
  {
    var t, t', new_ := s.timer, s'.timer, |s.requests|;
    BumpIsBounded(t.events, deadline, key);
    assert !HasFired(t, new_) by {
      assert forall i :: 0 <= i < |t.fired| ==> FiringOk(s.requests, t.fired[i]);
    }
    forall k | k in t'.events ensures EntryOk(s'.requests, k, t'.events[k]) && !HasFired(t', t'.events[k]) {
      assert k != key ==> EntryOk(s.requests, k, t.events[k]) && !HasFired(t, t.events[k]);
    }
    forall w | 0 <= w < |s'.requests| ensures IsLive(t', w) || HasFired(t', w) {
      if w == new_ {
        assert t'.events[key] == w;
      } else if IsLive(t, w) {
        var k :| k in t.events && t.events[k] == w;
        assert t'.events[k] == w;
      }
    }
    forall i | 0 <= i < |t'.fired| ensures FiringOk(s'.requests, t'.fired[i]) {
      assert FiringOk(s.requests, t.fired[i]);
    }
    forall j, k | j in t'.events && k in t'.events && t'.events[j] == t'.events[k] ensures j == k {
      assert j != key ==> EntryOk(s.requests, j, t.events[j]);
      assert k != key ==> EntryOk(s.requests, k, t.events[k]);
    }
  }

  /** The firings of an `expire` are the due entries: new, distinct and not early. */
  lemma NewFirings(s: State, now: nat, keys: seq<nat>)
    requires Inv(s) && IsDue(s.timer.events, now, keys)
    ensures var fs := Firings(s.timer.events, now, keys);
            && (forall i :: 0 <= i < |fs| ==> FiringOk(s.requests, fs[i]) && !HasFired(s.timer, fs[i].waker))
            && (forall i, j :: 0 <= i < j < |fs| ==> fs[i].waker != fs[j].waker)
  {
    var fs := Firings(s.timer.events, now, keys);
    forall i | 0 <= i < |fs| ensures FiringOk(s.requests, fs[i]) && !HasFired(s.timer, fs[i].waker) {
      assert keys[i] in keys;
      assert EntryOk(s.requests, keys[i], s.timer.events[keys[i]]);
    }
    forall i, j | 0 <= i < j < |fs| ensures fs[i].waker != fs[j].waker {
      assert keys[i] in keys && keys[j] in keys && keys[i] < keys[j];
    }
  }

  lemma ExpiresKeepsInv(s: State, now: nat, keys: seq<nat>, s': State)
    requires Inv(s) && Next(s, Expires(now, keys), s')
    ensures Inv(s')
  {
    hide EntryOk, FiringOk;
    var t, t', fs := s.timer, s'.timer, Firings(s.timer.events, now, keys);
    NewFirings(s, now, keys);
    forall k | k in t'.events ensures EntryOk(s'.requests, k, t'.events[k]) && !HasFired(t', t'.events[k]) {
      StillLive(s, now, keys, k);
    }
    forall w | 0 <= w < |s'.requests| ensures IsLive(t', w) || HasFired(t', w) {
      LiveOrFired(s, now, keys, s', w);
    }
    assert forall i, j :: 0 <= i < j < |t'.fired| ==> t'.fired[i].waker != t'.fired[j].waker by {
      FiringsStayDistinct(t.fired, fs);
    }
  }

  lemma FiringsStayDistinct(a: seq<Firing>, b: seq<Firing>)
    requires forall i, j :: 0 <= i < j < |a| ==> a[i].waker != a[j].waker
    requires forall i, j :: 0 <= i < j < |b| ==> b[i].waker != b[j].waker
    requires forall j :: 0 <= j < |b| ==> !HasFired(TimerState(map[], a), b[j].waker)
    ensures forall i, j :: 0 <= i < j < |a + b| ==> (a + b)[i].waker != (a + b)[j].waker
  {
  }

  lemma StillLive(s: State, now: nat, keys: seq<nat>, k: nat)
    requires Inv(s) && IsDue(s.timer.events, now, keys) && k in s.timer.events && k > now
    ensures EntryOk(s.requests, k, s.timer.events[k])
    ensures !HasFired(TimerState(map[], s.timer.fired + Firings(s.timer.events, now, keys)), s.timer.events[k])
  {
    var fs := Firings(s.timer.events, now, keys);
    forall i | 0 <= i < |fs| ensures fs[i].waker != s.timer.events[k] {
      assert keys[i] in keys;
    }
    assert !HasFired(s.timer, s.timer.events[k]);
  }

  lemma LiveOrFired(s: State, now: nat, keys: seq<nat>, s': State, w: nat)
    requires Inv(s) && Next(s, Expires(now, keys), s') && w < |s.requests|
    ensures IsLive(s'.timer, w) || HasFired(s'.timer, w)
  {
    if HasFired(s.timer, w) {
      var i :| 0 <= i < |s.timer.fired| && s.timer.fired[i].waker == w;
      assert s'.timer.fired[i].waker == w;
    } else {
      var k :| k in s.timer.events && s.timer.events[k] == w;
      if k > now {
        assert s'.timer.events[k] == w;
      } else {
        assert k in keys;
        var i :| 0 <= i < |keys| && keys[i] == k;
        assert s'.timer.fired[|s.timer.fired| + i].waker == w;
      }
    }
  }

  ghost predicate IsRun(trace: seq<State>, steps: seq<Step>) {
    && |trace| == |steps| + 1 && trace[0] == State(TimerState(map[], []), [])
    && forall i :: 0 <= i < |steps| ==> Next(trace[i], steps[i], trace[i + 1])
  }

  lemma {:induction false} RunKeepsInv(trace: seq<State>, steps: seq<Step>, i: nat)
    requires IsRun(trace, steps) && i < |trace|
    ensures Inv(trace[i])
  {
    hide Inv, Next;
    if i == 0 {
      InitOk(trace[0]);
    } else {
      RunKeepsInv(trace, steps, i - 1);
      assert Next(trace[i - 1], steps[i - 1], trace[i]);
      match steps[i - 1] {
        case Adds(deadline, key) => AddsKeepsInv(trace[i - 1], deadline, key, trace[i]);
        case Expires(now, keys) => ExpiresKeepsInv(trace[i - 1], now, keys, trace[i]);
      }
    }
  }

  lemma InitOk(s: State)
    requires s == State(TimerState(map[], []), [])
    ensures Inv(s)
  {
  }

  /** Over every run no waker is called twice, and none before the deadline it asked for. */
  lemma FiresOnceAndNotEarly(trace: seq<State>, steps: seq<Step>, i: nat, f: nat, g: nat)
    requires IsRun(trace, steps) && i < |trace| && f < |trace[i].timer.fired| && g < |trace[i].timer.fired|
    ensures var fired := trace[i].timer.fired;
            && fired[f].waker < |trace[i].requests| && trace[i].requests[fired[f].waker].deadline <= fired[f].now
            && (fired[f].waker == fired[g].waker ==> f == g)
  {
    RunKeepsInv(trace, steps, i);
    assert FiringOk(trace[i].requests, trace[i].timer.fired[f]);
  }

  /** A timer has fired once `expire` has run at its deadline plus the timers live when it was added. */
  lemma FiresInTime(trace: seq<State>, steps: seq<Step>, i: nat, w: nat)
    requires IsRun(trace, steps) && i < |steps| && steps[i].Expires? && w < |trace[i].requests|
    requires trace[i].requests[w].deadline + trace[i].requests[w].live <= steps[i].now
    ensures HasFired(trace[i + 1].timer, w)
  {
    RunKeepsInv(trace, steps, i + 1);
    var s' := trace[i + 1];
    assert Next(trace[i], steps[i], s');
    assert forall k :: k in s'.timer.events ==> k > steps[i].now && EntryOk(s'.requests, k, s'.timer.events[k]);
    assert !IsLive(s'.timer, w);
  }
}
