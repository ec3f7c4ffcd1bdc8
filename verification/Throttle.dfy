/** Underscore's throttle. Times are readings of one clock. The timers that are pending are kept by the browser; the
    throttled function only holds on to one of them. */
module Throttle {
  import opened Wrappers

  type Args = nat

  datatype Call = Call(time: int, args: Args)

  /** A timer, as setTimeout returns it. */
  datatype Timer = Timer(id: nat, due: int)

  /** A run of the wrapped function: when, with which arguments, and which call they came from. */
  datatype Run = Run(time: int, args: Args, call: int)

  /** Consecutive runs are at least wait apart. */
  ghost predicate Spaced(runs: seq<Run>, wait: nat) {
    forall i :: 0 < i < |runs| ==> runs[i].time - runs[i - 1].time >= wait
  }

  /** Every run delivers the arguments of a call made by then, and no call is delivered twice. */
  ghost predicate Faithful(calls: seq<Call>, runs: seq<Run>, clock: int) {
    && (forall i :: 0 <= i < |runs| ==> 0 <= runs[i].call < |calls| && runs[i].args == calls[runs[i].call].args
                                        && calls[runs[i].call].time <= runs[i].time <= clock)
    && (forall i :: 0 < i < |runs| ==> runs[i - 1].call < runs[i].call)
    && (forall i :: 0 <= i < |calls| ==> calls[i].time <= clock)
  }

  /** The number of calls up to the latest one delivered. */
  ghost function Delivered(runs: seq<Run>): int {
    if runs == [] then 0 else runs[|runs| - 1].call + 1
  }

  lemma FaithfulCall(calls: seq<Call>, runs: seq<Run>, clock: int, c: Call)
    requires Faithful(calls, runs, clock) && c.time >= clock
    ensures Faithful(calls + [c], runs, c.time)
  {
  }

  lemma FaithfulRun(calls: seq<Call>, runs: seq<Run>, now: int, wait: nat)
    requires calls != [] && Delivered(runs) < |calls| && Spaced(runs, wait)
    requires exists clock :: clock <= now && Faithful(calls, runs, clock)
    requires runs != [] ==> now - runs[|runs| - 1].time >= wait
    ensures var r := Run(now, calls[|calls| - 1].args, |calls| - 1);
            Spaced(runs + [r], wait) && Faithful(calls, runs + [r], now)
  {
    var r := Run(now, calls[|calls| - 1].args, |calls| - 1);
    var runs' := runs + [r];
    assert forall i :: 0 <= i < |runs'| ==> runs'[i] == if i < |runs| then runs[i] else r;
  }

  /** The state of one throttled function, with the trace so far. */
  datatype State = State(previous: int, timer: Option<int>, args: Args, clock: int, calls: seq<Call>, runs: seq<Run>)

  ghost predicate Sound(s: State, wait: nat) {
    && s.previous <= s.clock
    && (if s.runs == [] then s.previous == 0 else s.previous == s.runs[|s.runs| - 1].time)
    && (s.calls != [] ==> s.args == s.calls[|s.calls| - 1].args)
    && (if s.timer.Some? then s.calls != [] && s.timer.value == s.previous + wait && Delivered(s.runs) < |s.calls|
        else Delivered(s.runs) == |s.calls|)
    && Spaced(s.runs, wait) && Faithful(s.calls, s.runs, s.clock)
  }

  /** A call whose arguments are only stored, for the timer to deliver. */
  lemma CallStored(s: State, wait: nat, now: int, a: Args, timer: int)
    requires Sound(s, wait) && now >= s.clock
    requires if s.timer.Some? then s.timer.value == timer else timer == s.previous + wait
    ensures Sound(State(s.previous, Some(timer), a, now, s.calls + [Call(now, a)], s.runs), wait)
  {
    FaithfulCall(s.calls, s.runs, s.clock, Call(now, a));
  }

  /** A call whose arguments are delivered at once. */
  lemma CallDelivered(s: State, wait: nat, now: int, a: Args)
    requires Sound(s, wait) && now >= s.clock && now - s.previous >= wait
    ensures Sound(State(now, None, a, now, s.calls + [Call(now, a)], s.runs + [Run(now, a, |s.calls|)]), wait)
  {
    FaithfulCall(s.calls, s.runs, s.clock, Call(now, a));
    var calls := s.calls + [Call(now, a)];
    assert calls[|calls| - 1] == Call(now, a);
    FaithfulRun(calls, s.runs, now, wait);
  }

  /** The timer delivers the stored arguments. */
  lemma StoredDelivered(s: State, wait: nat, now: int)
    requires Sound(s, wait) && now >= s.clock && s.timer.Some? && now >= s.timer.value
    ensures s.calls != []
    ensures Sound(State(now, None, s.args, now, s.calls, s.runs + [Run(now, s.args, |s.calls| - 1)]), wait)
  {
    FaithfulRun(s.calls, s.runs, now, wait);
  }

  /** Just one timer is pending, and this is when it is due. */
  predicate OneTimer(pending: set<Timer>, due: int) {
    |pending| == 1 && forall t :: t in pending ==> t.due == due
  }

  class Throttled {
    const wait: nat
    var previous: int
    var timeout: Option<Timer>
    var args: Args
    /** The timers that have been set and neither cleared nor gone off. */
    var pending: set<Timer>
    var nextTimer: nat
    ghost var clock: int
    ghost var calls: seq<Call>
    ghost var runs: seq<Run>

    ghost predicate Valid()
      reads this
    {
      Sound(Trace(), wait) && pending == (if timeout.Some? then {timeout.value} else {})
    }

    ghost function Trace(): State
      reads this
    {
      State(previous, if timeout.Some? then Some(timeout.value.due) else None, args, clock, calls, runs)
    }

    constructor (wait: nat)
      ensures Valid() && this.wait == wait && clock == 0 && pending == {} && calls == [] && runs == []
    {
      this.wait := wait;
      previous, timeout, args, pending, nextTimer := 0, None, 0, {}, 0;
      clock, calls, runs := 0, [], [];
    }

    /** The browser sets a timer. */
    method SetTimeout(now: int, delay: int) returns (t: Timer)
      modifies `pending, `nextTimer
      ensures t.due == now + delay && pending == old(pending) + {t}
    {
      t := Timer(nextTimer, now + delay);
      nextTimer := nextTimer + 1;
      pending := pending + {t};
    }

    /** The browser clears the timer held on to, if there is one. */
    method ClearTimeout()
      modifies `pending
      ensures pending == old(pending) - (if timeout.Some? then {timeout.value} else {})
    {
      if timeout.Some? {
        pending := pending - {timeout.value};
      }
    }

    /** The wrapped function runs with the stored arguments. */
    method Apply(now: int)
      requires calls != []
      modifies `runs
      ensures runs == old(runs) + [Run(now, args, |calls| - 1)]
    {
      runs := runs + [Run(now, args, |calls| - 1)];
    }

    /** A call of the throttled function. */
    method Invoke(now: int, a: Args)
      requires Valid() && now >= clock
      modifies this
      ensures Valid() && clock == now && calls == old(calls) + [Call(now, a)]
      ensures now - old(previous) >= wait ==> pending == {} && runs == old(runs) + [Run(now, a, |calls| - 1)]
      ensures now - old(previous) < wait ==> runs == old(runs) && OneTimer(pending, old(previous) + wait)
      ensures now - old(previous) < wait && old(pending) != {} ==> pending == old(pending)
    {
      ghost var s := Trace();
      clock := now;
      var remaining := wait - (now - previous);
      args := a;
      calls := calls + [Call(now, a)];
      if remaining <= 0 {
        RunNow(now, a, s);
      } else {
        RunLater(now, a, remaining, s);
      }
    }

    /** The call has been noted; s is what there was before. */
    ghost predicate Noted(now: int, a: Args, s: State)
      reads this
    {
      && Sound(s, wait) && now >= s.clock
      && Trace() == State(s.previous, s.timer, a, now, s.calls + [Call(now, a)], s.runs)
      && pending == (if timeout.Some? then {timeout.value} else {})
    }

    /** The branch of a call that comes late enough. */
    method RunNow(now: int, a: Args, ghost s: State)
      requires Noted(now, a, s) && now - s.previous >= wait
      modifies `pending, `timeout, `previous, `runs
      ensures Valid() && pending == {} && runs == old(runs) + [Run(now, a, |calls| - 1)]
    {
      CallDelivered(s, wait, now, a);
      Deliver(now, State(now, None, a, now, s.calls + [Call(now, a)], s.runs + [Run(now, a, |s.calls|)]));
    }

    /** Clear the timer and run; next is the state this leads to. */
    method Deliver(now: int, ghost next: State)
      requires calls != [] && Sound(next, wait)
      requires next == State(now, None, args, clock, calls, runs + [Run(now, args, |calls| - 1)])
      requires pending == (if timeout.Some? then {timeout.value} else {})
      modifies `pending, `timeout, `previous, `runs
      ensures Valid() && pending == {} && Trace() == next
    {
      ClearTimeout();
      timeout := None;
      previous := now;
      Apply(now);
      assert Trace() == next;
    }

    /** The branch of a call that comes too early. */
    method RunLater(now: int, a: Args, remaining: int, ghost s: State)
      requires Noted(now, a, s) && remaining == wait - (now - s.previous) > 0
      modifies `pending, `nextTimer, `timeout
      ensures Valid() && OneTimer(pending, previous + wait)
      ensures old(pending) != {} ==> pending == old(pending)
    {
      CallStored(s, wait, now, a, s.previous + wait);
      SetUnlessSet(now, remaining,
                   State(s.previous, Some(s.previous + wait), a, now, s.calls + [Call(now, a)], s.runs));
    }

    /** Set a timer unless there is one; next is the state this leads to. */
    method SetUnlessSet(now: int, remaining: int, ghost next: State)
      requires Sound(next, wait) && next == State(previous, Some(now + remaining), args, clock, calls, runs)
      requires pending == (if timeout.Some? then {timeout.value} else {})
      requires timeout.Some? ==> timeout.value.due == now + remaining
      modifies `pending, `nextTimer, `timeout
      ensures Valid() && OneTimer(pending, now + remaining)
      ensures old(pending) != {} ==> pending == old(pending)
    {
      if timeout.None? {
        var t := SetTimeout(now, remaining);
        timeout := Some(t);
      }
      assert Trace() == next;
    }

    /** A pending timer goes off, never before it is due: the latest arguments are delivered. */
    method Later(now: int, t: Timer)
      requires Valid() && now >= clock && t in pending && now >= t.due
      modifies this
      ensures Valid() && clock == now && pending == {} && calls == old(calls)
      ensures runs == old(runs) + [Run(now, calls[|calls| - 1].args, |calls| - 1)]
    {
      StoredDelivered(Trace(), wait, now);
      clock := now;
      pending := pending - {t};
      previous := now;
      timeout := None;
      Apply(now);
    }

    /** What a reader of the trace may rely on. */
    lemma Meaning(i: nat, j: nat)
      requires Valid()
      ensures i < j < |runs| ==> runs[j].time - runs[i].time >= wait && runs[i].call < runs[j].call
      ensures |pending| <= 1
      ensures pending == {} && calls != [] ==> runs != [] && runs[|runs| - 1].args == calls[|calls| - 1].args
      ensures forall t :: t in pending ==> t.due <= clock + wait
      decreases j
    {
      if i + 1 < j < |runs| { Meaning(i, j - 1); }
    }
  }
}
