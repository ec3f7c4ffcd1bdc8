/** jQuery.Callbacks: the list with its firing indexes. Every method is proved to act on view, the queue of
    module CallbackQueue. A callback's body is an arbitrary series of calls on the list. */
module Callbacks {
  import opened Wrappers
  import opened CallbackQueue

  /** What one execution of a callback does: calls on the list, and the value it returns. */
  datatype Behaviour = Behaviour(ops: seq<Op>, returnsFalse: bool)

  /** The first index from start on whose registration is of fn (jQuery.inArray), or the length. */
  method InArray(fn: Fn, list: seq<Reg>, start: nat) returns (index: nat)
    requires start <= |list|
    ensures start <= index <= |list|
    ensures index < |list| ==> list[index].fn == fn
    ensures forall k :: start <= k < index ==> list[k].fn != fn
  {
    index := start;
    while index < |list| && list[index].fn != fn
      invariant start <= index <= |list|
      invariant forall k :: start <= k < index ==> list[k].fn != fn
    {
      index := index + 1;
    }
  }

  ghost function Front(rs: seq<Reg>, firing: bool, done: int): seq<Reg> {
    if firing && 0 <= done <= |rs| then rs[..done] else rs
  }

  ghost function Back(rs: seq<Reg>, firing: bool, done: int): seq<Reg> {
    if firing && 0 <= done <= |rs| then rs[done..] else []
  }

  class Callbacks {
    const opts: Options
    /** None once disabled. */
    var list: Option<seq<Reg>>
    var firing: bool
    var fired: bool
    var memory: Option<Data>
    var firingLength: int
    var firingIndex: int
    var firingStart: int
    /** None for "undefined": the list does not repeat, or no longer. */
    var stack: Option<seq<Data>>
    /** The arguments of the pass under way. */
    var data: Data
    var nextId: nat
    /** A callback is being executed. */
    ghost var inCall: bool
    ghost var log: Log
    /** The queue this list stands for. */
    ghost var view: Queue

    ghost predicate Valid()
      reads this
    {
      Indexed() && view == Actual()
    }

    /** The firing indexes fit the list. */
    ghost predicate Indexed()
      reads this
    {
      && firingStart == 0
      && (inCall ==> firing)
      && (firing ==> fired)
      && (list.Some? && firing ==>
            && firingLength == |list.value|
            && (if inCall then -1 else 0) <= firingIndex
            && firingIndex + (if inCall then 1 else 0) <= |list.value|)
      && (list.None? ==> stack.None? && memory.None?)
    }

    /** How much of the list the pass under way is done with. */
    ghost function Done(): int
      reads this
    {
      if inCall then firingIndex + 1 else firingIndex
    }

    /** The queue this list stands for, computed from its fields. */
    ghost function Actual(): Queue
      reads this
    {
      var rs := list.GetOr([]);
      Queue(opts, list.Some?, Front(rs, firing, Done()), Back(rs, firing, Done()), firing, fired, memory, stack, data,
            nextId, log)
    }

    /** What the list has been through since it was made is a run of the queue. */
    ghost predicate Reached()
      reads this
    {
      IsRun(opts, view)
    }

    constructor (opts: Options)
      ensures Valid() && !firing && view == Init(opts) && Reached()
    {
      this.opts := opts;
      list, firing, fired, memory, stack := Some([]), false, false, None, if opts.once then None else Some([]);
      firingLength, firingIndex, firingStart, nextId, data := 0, 0, 0, 0, 0;
      inCall, log := false, Log(0, 0, [], [], []);
      new;
      view := Actual();
      assert view == Run(Init(opts), []);
    }

    /** So the guarantees on runs hold of the list: calls in order and none repeated, fires in order, and a pass that
        has nobody left to call has called every registration it covers exactly once. */
    lemma Guarantees(r: Reg)
      requires Valid() && Reached()
      ensures Orderly(view) && Fifo(view) && Remembers(view)
      ensures opts.unique ==> NoRepeats(view.past + view.ahead)
      ensures view.firing && view.ahead == [] && r in view.past && view.log.from <= r.id ==>
                CalledOnce(view.log.calls, Call(r, view.data, view.log.pass))
    {
      var acts :| view == Run(Init(opts), acts);
      RunOrderly(opts, acts);
      RunFifo(opts, acts);
      RunRemembers(opts, acts);
      if opts.unique { RunUnique(opts, acts); }
      PassComplete(opts, acts, r);
    }

    // ---- the parts of fire ----

    /** Up to the loop. */
    method FireStart(args: Data)
      requires !firing && list.Some? && 0 <= firingStart <= |list.value| && !inCall
      modifies this
      ensures Valid() && firing && !inCall
      ensures view == Begin(old(Actual()), old(list.value), old(firingStart), args)
      ensures data == args && memory == if opts.memory then Some(args) else None
    {
      memory := if opts.memory then Some(args) else None;
      fired := true;
      firingIndex := firingStart;
      log := log.(pass := log.pass + 1,
                  from := if firingStart < |list.value| then list.value[firingStart].id else nextId);
      firingStart := 0;
      firingLength := |list.value|;
      firing := true;
      data := args;
      assert Done() == old(firingStart);
      view := Actual();
    }

    /** The loop's test; if it holds, the callback it is about to execute. */
    method NextCallback() returns (r: Option<Reg>)
      requires Valid() && firing && !inCall
      modifies `inCall, `log, `view
      ensures Valid() && inCall == r.Some?
      ensures r.Some? <==> list.Some? && old(view).ahead != []
      ensures r.Some? ==> r.value == old(view).ahead[0] && view == CallHead(old(view))
      ensures r.None? ==> view == old(view)
    {
      if list.Some? && firingIndex < firingLength {
        r := Some(list.value[firingIndex]);
        inCall := true;
        log := log.(calls := log.calls + [Call(r.value, data, log.pass)]);
      } else {
        r := None;
      }
      view := Actual();
    }

    /** The callback has returned: break out on a false that stops the list, or move the index on. */
    method Returned(returnsFalse: bool) returns (stop: bool)
      requires Valid() && firing && inCall
      modifies `inCall, `memory, `firingIndex, `view
      ensures Valid() && stop == (returnsFalse && opts.stopOnFalse) && inCall == stop
      ensures view == if stop then old(view).(memory := None) else old(view)
    {
      if returnsFalse && opts.stopOnFalse {
        memory := None;
        view := Actual();
        return true;
      }
      inCall := false;
      firingIndex := firingIndex + 1;
      stop := false;
      view := Actual();
    }

    /** The first stacked fire leaves the stack, and its pass begins. */
    method FireStacked()
      requires Valid() && !firing && list.Some? && stack.Some? && stack.value != []
      modifies this
      ensures Valid() && firing && !inCall
      ensures var q := old(view);
              view == Begin(q.(stack := Some(q.stack.value[1..]),
                               log := q.log.(started := q.log.started + [q.stack.value[0]])),
                            q.past, 0, q.stack.value[0])
    {
      var args := stack.value[0];
      stack := Some(stack.value[1..]);
      log := log.(started := log.started + [args]);
      FireStart(args);
    }

    /** After the loop; if a stacked fire was due, its pass has begun. */
    method FireEnd()
      requires Valid() && firing
      modifies this
      ensures Valid() && !inCall
      ensures view == End(old(view))
    {
      ghost var q := view;
      firing, inCall := false, false;
      view := Actual();
      if list.Some? {
        assert q.past + q.ahead == list.value;
        if stack.Some? {
          if stack.value != [] {
            FireStacked();
          }
        } else if memory.Some? {
          list := Some([]);
        } else {
          Disable();
        }
      }
      view := Actual();
    }

    // ---- the public operations, as far as they run without a pass of their own ----

    method Disable()
      requires Valid()
      modifies `list, `stack, `memory, `view
      ensures Valid() && view == CallbackQueue.Disable(old(view))
      ensures old(Reached()) ==> Reached()
    {
      IsRunStep(opts, view, Do(OpDisable));
      list, stack, memory := None, None, None;
      view := Actual();
    }

    method Lock()
      requires Valid()
      modifies `list, `stack, `memory, `view
      ensures Valid() && view == CallbackQueue.Lock(old(view))
      ensures old(Reached()) ==> Reached()
    {
      IsRunStep(opts, view, Do(OpLock));
      stack := None;
      view := Actual();
      if memory.None? {
        Disable();
      }
    }

    /** empty, between passes. It also revives a disabled list. */
    method Empty()
      requires Valid() && !firing
      modifies `list, `view
      ensures Valid() && view == CallbackQueue.Empty(old(view))
      ensures old(Reached()) ==> Reached()
    {
      IsRunStep(opts, view, Emptying);
      list := Some([]);
      view := Actual();
    }

    method Push(fns: seq<Fn>)
      requires list.Some?
      modifies `list, `nextId
      ensures list.Some? && list.value == old(list.value) + Fresh(old(list.value), fns, opts.unique, old(nextId))
      ensures nextId == old(nextId) + |Fresh(old(list.value), fns, opts.unique, old(nextId))|
    {
      var i := 0;
      while i < |fns|
        invariant 0 <= i <= |fns| && list.Some? && old(list.value) <= list.value
        invariant nextId - old(nextId) == |list.value| - |old(list.value)|
        invariant old(list.value) + Fresh(old(list.value), fns, opts.unique, old(nextId))
                  == list.value + Fresh(list.value, fns[i..], opts.unique, nextId)
      {
        assert fns[i..][0] == fns[i] && fns[i..][1..] == fns[i + 1..];
        if !opts.unique || !CallbackQueue.Has(list.value, fns[i]) {
          ghost var r := Reg(nextId, fns[i]);
          ghost var rest := Fresh(list.value + [r], fns[i + 1..], opts.unique, nextId + 1);
          assert list.value + ([r] + rest) == list.value + [r] + rest;
          list := Some(list.value + [Reg(nextId, fns[i])]);
          nextId := nextId + 1;
        }
        i := i + 1;
      }
      assert fns[i..] == [];
    }

    /** add; if the list is idle with a memory, the pass over the new callbacks has begun. */
    method Add(fns: seq<Fn>)
      requires Valid() && (firing ==> inCall)
      modifies this
      ensures Valid() && inCall == old(inCall)
      ensures view == CallbackQueue.Add(old(view), fns)
      ensures old(Reached()) ==> Reached()
    {
      IsRunStep(opts, view, Do(OpAdd(fns)));
      if list.Some? {
        if firing { AddFiring(fns); } else { AddIdle(fns); }
      }
    }

    /** During a pass the new callbacks join it. */
    method AddFiring(fns: seq<Fn>)
      requires Valid() && firing && inCall && list.Some?
      modifies `list, `nextId, `firingLength, `view
      ensures Valid() && list.Some? && view == CallbackQueue.Add(old(view), fns)
    {
      ghost var q, was := view, list.value;
      assert q.past + q.ahead == was;
      Push(fns);
      firingLength := |list.value|;
      AppendHalves(was, Fresh(was, fns, opts.unique, q.nextId), Done());
      view := Actual();
    }

    /** Between passes they are only called if there is a memory. */
    method AddIdle(fns: seq<Fn>)
      requires Valid() && !firing && list.Some?
      modifies this
      ensures Valid() && !inCall && view == CallbackQueue.Add(old(view), fns)
    {
      var start := |list.value|;
      ghost var q := view;
      assert q.past + q.ahead == list.value;
      Push(fns);
      if memory.Some? {
        firingStart := start;
        FireStart(memory.value);
      } else {
        view := Actual();
      }
    }

    /** One entry leaves the list, and the firing indexes are put right. */
    method SpliceOut(index: nat)
      requires Indexed() && (firing ==> inCall) && list.Some? && index < |list.value|
      modifies `list, `firingLength, `firingIndex
      ensures Indexed()
      ensures list == Some(old(list.value)[..index] + old(list.value)[index + 1..])
      ensures firing ==> Done() == if index < old(Done()) then old(Done()) - 1 else old(Done())
    {
      list := Some(list.value[..index] + list.value[index + 1..]);
      if firing {
        if index <= firingLength { firingLength := firingLength - 1; }
        if index <= firingIndex { firingIndex := firingIndex - 1; }
      }
    }

    ghost predicate Remaining(fn: Fn, past: seq<Reg>, ahead: seq<Reg>)
      reads this
    {
      && list.Some?
      && Without(Front(list.value, firing, Done()), fn) == past
      && Without(Back(list.value, firing, Done()), fn) == ahead
    }

    method SpliceNext(fn: Fn, index: nat, ghost past: seq<Reg>, ghost ahead: seq<Reg>) returns (next: nat)
      requires Indexed() && (firing ==> inCall) && Remaining(fn, past, ahead)
      requires index < |list.value| && list.value[index].fn == fn
      requires forall k :: 0 <= k < index ==> list.value[k].fn != fn
      modifies `list, `firingLength, `firingIndex
      ensures Indexed() && Remaining(fn, past, ahead) && |list.value| == |old(list.value)| - 1
      ensures next <= |list.value| && (next < |list.value| ==> list.value[next].fn == fn)
      ensures forall k :: 0 <= k < next ==> list.value[k].fn != fn
    {
      SpliceFn(fn, index, past, ahead);
      next := InArray(fn, list.value, index);
    }

    /** One entry of fn goes; what its removal will leave of the two halves is the same as before. */
    method SpliceFn(fn: Fn, index: nat, ghost past: seq<Reg>, ghost ahead: seq<Reg>)
      requires Indexed() && (firing ==> inCall) && Remaining(fn, past, ahead)
      requires index < |list.value| && list.value[index].fn == fn
      modifies `list, `firingLength, `firingIndex
      ensures Indexed() && Remaining(fn, past, ahead) && |list.value| == |old(list.value)| - 1
      ensures forall k :: 0 <= k < index ==> list.value[k] == old(list.value)[k]
    {
      ghost var was, done := list.value, Done();
      CutHalves(was, firing, done, index, fn);
      SpliceOut(index);
      assert firing ==> Done() == if index < done then done - 1 else done;
      assert Remaining(fn, past, ahead);
    }

    /** The loop over the occurrences of fn. */
    method SpliceAll(fn: Fn, ghost past: seq<Reg>, ghost ahead: seq<Reg>)
      requires Indexed() && (firing ==> inCall) && Remaining(fn, past, ahead)
      modifies `list, `firingLength, `firingIndex
      ensures Indexed() && list.Some?
      ensures Front(list.value, firing, Done()) == past && Back(list.value, firing, Done()) == ahead
    {
      var index := InArray(fn, list.value, 0);
      while index < |list.value|
        invariant Indexed() && Remaining(fn, past, ahead)
        invariant 0 <= index <= |list.value| && (index < |list.value| ==> list.value[index].fn == fn)
        invariant forall k :: 0 <= k < index ==> list.value[k].fn != fn
        decreases |list.value|
      {
        index := SpliceNext(fn, index, past, ahead);
      }
      NoneLeft(list.value, firing, Done(), fn);
    }

    method RemoveOne(fn: Fn)
      requires Valid() && (firing ==> inCall) && list.Some?
      modifies `list, `firingLength, `firingIndex, `view
      ensures Valid() && list.Some?
      ensures view == CallbackQueue.RemoveOne(old(view), fn)
    {
      SpliceAll(fn, Without(view.past, fn), Without(view.ahead, fn));
      view := Actual();
    }

    method Remove(fns: seq<Fn>)
      requires Valid() && (firing ==> inCall)
      modifies `list, `firingLength, `firingIndex, `view
      ensures Valid() && view == CallbackQueue.Remove(old(view), fns)
      ensures old(Reached()) ==> Reached()
    {
      IsRunStep(opts, view, Do(OpRemove(fns)));
      ghost var q := view;
      if list.Some? {
        var i := 0;
        while i < |fns|
          invariant 0 <= i <= |fns| && list.Some? && Valid()
          invariant CallbackQueue.Remove(q, fns) == CallbackQueue.Remove(view, fns[i..])
        {
          assert fns[i..][0] == fns[i] && fns[i..][1..] == fns[i + 1..];
          RemoveOne(fns[i]);
          i := i + 1;
        }
        assert fns[i..] == [];
      } else {
        RemoveNothing(q, fns);
      }
    }

    /** fireWith; on an idle list the pass has begun. */
    method FireWith(args: Data)
      requires Valid() && (firing ==> inCall)
      modifies this
      ensures Valid() && inCall == old(inCall)
      ensures view == CallbackQueue.FireWith(old(view), args)
      ensures old(Reached()) ==> Reached()
    {
      IsRunStep(opts, view, Do(OpFire(args)));
      if list.Some? && (!fired || stack.Some?) {
        ghost var q := view;
        assert q.past + q.ahead == list.value;
        log := log.(accepted := log.accepted + [args]);
        if firing {
          stack := Some(stack.value + [args]);
        } else {
          log := log.(started := log.started + [args]);
          FireStart(args);
        }
      }
      view := Actual();
    }

    // ---- whole passes ----

    /** The body of a callback. */
    method PerformOps(ops: seq<Op>)
      requires Valid() && firing && inCall
      modifies this
      ensures Valid() && firing && inCall
      ensures view == PerformAll(old(view), ops)
    {
      var i := 0;
      while i < |ops|
        invariant 0 <= i <= |ops| && Valid() && firing && inCall
        invariant PerformAll(old(view), ops) == PerformAll(view, ops[i..])
      {
        assert ops[i..][0] == ops[i] && ops[i..][1..] == ops[i + 1..];
        match ops[i] {
          case OpAdd(fns) => Add(fns);
          case OpRemove(fns) => Remove(fns);
          case OpFire(args) => FireWith(args);
          case OpDisable => Disable();
          case OpLock => Lock();
        }
        i := i + 1;
      }
      assert ops[i..] == [];
    }

    /** fire, from the loop on. script[i] is what the i-th callback execution does; when the script is used up,
        callbacks do nothing. */
    method Fire(script: seq<Behaviour>) returns (rest: seq<Behaviour>)
      requires Valid() && firing && !inCall
      modifies this
      ensures Valid() && !firing
      ensures (view, rest) == RunPass(old(view), script)
      decreases |script|, StackSize(view)
    {
      rest := script;
      ghost var result := RunPass(view, script);
      while true
        invariant Valid() && firing && !inCall
        invariant RunPass(view, rest) == result
        invariant |rest| < |script| || (rest == script && StackSize(view) == StackSize(old(view)))
        decreases |rest|, |view.ahead|
      {
        ghost var q := view;
        var r := NextCallback();
        if r.None? { break; }
        var b := if rest == [] then Behaviour([], false) else rest[0];
        rest := if rest == [] then [] else rest[1..];
        PerformOps(b.ops);
        var stop := Returned(b.returnsFalse);
        if stop { break; }
      }
      FireEnd();
      if firing {
        rest := Fire(rest);
      }
    }

    /** fireWith from outside any pass, to its end. */
    method FireAndRun(args: Data, script: seq<Behaviour>) returns (rest: seq<Behaviour>)
      requires Valid() && !firing
      modifies this
      ensures Valid() && !firing
      ensures (view, rest) == RunPass(CallbackQueue.FireWith(old(view), args), script)
      ensures old(Reached()) ==> Reached()
      ensures old(Reached()) && old(view.alive && (!view.fired || view.stack.Some?)) ==>
                forall r :: r in old(view).past && Gentle(opts, script, r.fn) ==>
                  CalledOnce(view.log.calls, Call(r, args, old(view).log.pass + 1))
    {
      FireCalls(opts, view, args, script);
      IsRunStep(opts, view, Do(OpFire(args)));
      IsRunPass(opts, CallbackQueue.FireWith(view, args), script);
      FireWith(args);
      rest := script;
      if firing { rest := Fire(script); }
    }

    /** add from outside any pass, to the end of the pass it may cause. */
    method AddAndRun(fns: seq<Fn>, script: seq<Behaviour>) returns (rest: seq<Behaviour>)
      requires Valid() && !firing
      modifies this
      ensures Valid() && !firing
      ensures (view, rest) == RunPass(CallbackQueue.Add(old(view), fns), script)
      ensures old(Reached()) ==> Reached()
      ensures old(view).memory.None? ==> view.log == old(view).log
      ensures old(Reached()) && old(Refires(opts, view)) ==>
                var started := old(view).log.started;
                started != [] && forall r ::
                  r in Fresh(old(view).past, fns, opts.unique, old(view).nextId) && Gentle(opts, script, r.fn) ==>
                  CalledOnce(view.log.calls, Call(r, started[|started| - 1], old(view).log.pass + 1))
    {
      AddCalls(opts, view, fns, script);
      IsRunStep(opts, view, Do(OpAdd(fns)));
      IsRunPass(opts, CallbackQueue.Add(view, fns), script);
      Add(fns);
      rest := script;
      if firing { rest := Fire(script); }
    }
  }

  function PerformAll(q: Queue, ops: seq<Op>): Queue
    decreases |ops|
  {
    if ops == [] then q else PerformAll(Perform(q, ops[0]), ops[1..])
  }

  function StackSize(q: Queue): nat {
    if q.stack.Some? then |q.stack.value| else 0
  }

  /** A pass on the queue, and the passes stacked during it. */
  function RunPass(q: Queue, script: seq<Behaviour>): (Queue, seq<Behaviour>)
    decreases |script|, StackSize(q), |q.ahead|, q.firing
  {
    if !q.firing then (q, script)
    else if q.alive && q.ahead != [] then
      var b := if script == [] then Behaviour([], false) else script[0];
      var rest := if script == [] then [] else script[1..];
      var q' := PerformAll(CallHead(q), b.ops);
      RunPass(if b.returnsFalse then Stop(q') else q', rest)
    else RunPass(End(q), script)
  }

  lemma {:induction false} RunAppend(q: Queue, a: seq<Action>, b: seq<Action>)
    ensures Run(q, a + b) == Run(Run(q, a), b)
    decreases |b|
  {
    if b == [] {
      assert a + b == a;
    } else {
      var n := |b| - 1;
      assert (a + b)[..|a + b| - 1] == a + b[..n];
      RunAppend(q, a, b[..n]);
    }
  }

  lemma RunOne(q: Queue, a: Action)
    ensures Run(q, [a]) == Step(q, a)
  {
    assert [a][..0] == [];
  }

  /** No callback takes the function out of the list or ends the pass before its time. */
  ghost predicate Gentle(opts: Options, script: seq<Behaviour>, fn: Fn) {
    forall b :: b in script ==> (opts.stopOnFalse ==> !b.returnsFalse) && AllSpared(b.ops, fn)
  }

  ghost predicate AllSpared(ops: seq<Op>, fn: Fn) {
    forall op :: op in ops ==> Spares(Do(op), fn)
  }

  ghost predicate AllSpare(acts: seq<Action>, fn: Fn) {
    forall a :: a in acts ==> Spares(a, fn)
  }

  lemma {:induction false} PerformAllIsRun(q: Queue, ops: seq<Op>, fn: Fn) returns (acts: seq<Action>)
    ensures Run(q, acts) == PerformAll(q, ops) && PerformAll(q, ops).opts == q.opts
    ensures AllSpared(ops, fn) ==> AllSpare(acts, fn)
    decreases |ops|
  {
    if ops == [] {
      acts := [];
    } else {
      acts := PerformAllIsRun(Perform(q, ops[0]), ops[1..], fn);
      if ops[0].OpRemove? { RemoveOnly(q, ops[0].fns); }
      RunOne(q, Do(ops[0]));
      RunAppend(q, [Do(ops[0])], acts);
      assert ops[0] in ops && forall op :: op in ops[1..] ==> op in ops;
      acts := [Do(ops[0])] + acts;
    }
  }

  /** One callback: the turn that calls it, its body, and the stop if it asks for one. */
  lemma CallIsRun(q: Queue, b: Behaviour, fn: Fn) returns (acts: seq<Action>)
    requires q.firing && q.alive && q.ahead != []
    ensures var q' := PerformAll(CallHead(q), b.ops);
            Run(q, acts) == (if b.returnsFalse then Stop(q') else q') && Run(q, acts).opts == q.opts
    ensures Gentle(q.opts, [b], fn) ==> AllSpare(acts, fn)
  {
    assert b in [b];
    acts := PerformAllIsRun(CallHead(q), b.ops, fn);
    RunOne(q, Turning);
    RunAppend(q, [Turning], acts);
    acts := [Turning] + acts;
    var q' := PerformAll(CallHead(q), b.ops);
    if b.returnsFalse && q.opts.stopOnFalse {
      RunOne(q', Stopping);
      RunAppend(q, acts, [Stopping]);
      acts := acts + [Stopping];
    }
  }

  /** Whole passes are runs of the queue, so all that holds on every run holds of them; if the callbacks are gentle
      with a function, so is the run. */
  lemma {:induction false} RunPassIsRun(q: Queue, script: seq<Behaviour>, fn: Fn) returns (acts: seq<Action>)
    ensures Run(q, acts) == RunPass(q, script).0
    ensures Gentle(q.opts, script, fn) ==> AllSpare(acts, fn)
    decreases |script|, StackSize(q), |q.ahead|, q.firing
  {
    if !q.firing {
      acts := [];
    } else if q.alive && q.ahead != [] {
      var b := if script == [] then Behaviour([], false) else script[0];
      var rest := if script == [] then [] else script[1..];
      var start := CallIsRun(q, b, fn);
      acts := RunPassIsRun(Run(q, start), rest, fn);
      GentleParts(q.opts, script, fn);
      RunAppend(q, start, acts);
      acts := start + acts;
    } else {
      acts := RunPassIsRun(End(q), script, fn);
      RunOne(q, Turning);
      RunAppend(q, [Turning], acts);
      acts := [Turning] + acts;
    }
  }

  lemma GentleParts(opts: Options, script: seq<Behaviour>, fn: Fn)
    ensures Gentle(opts, script, fn) ==>
              && Gentle(opts, [if script == [] then Behaviour([], false) else script[0]], fn)
              && Gentle(opts, if script == [] then [] else script[1..], fn)
  {
  }

  lemma {:induction false} PassEnds(q: Queue, script: seq<Behaviour>)
    ensures !RunPass(q, script).0.firing
    decreases |script|, StackSize(q), |q.ahead|, q.firing
  {
    if q.firing {
      if q.alive && q.ahead != [] {
        var b := if script == [] then Behaviour([], false) else script[0];
        var rest := if script == [] then [] else script[1..];
        var q' := PerformAll(CallHead(q), b.ops);
        PassEnds(if b.returnsFalse then Stop(q') else q', rest);
      } else {
        PassEnds(End(q), script);
      }
    }
  }

  /** A registration that waits for a pass has been called exactly once in it, with its arguments, when the pass and
      all it caused are over, unless some callback removed its function or ended the pass. */
  lemma WholePass(opts: Options, q: Queue, script: seq<Behaviour>, r: Reg)
    requires IsRun(opts, q) && q.alive && q.firing && r in q.ahead && Gentle(q.opts, script, r.fn)
    ensures CalledOnce(RunPass(q, script).0.log.calls, Call(r, q.data, q.log.pass))
  {
    var before :| q == Run(Init(opts), before);
    RunOrderly(opts, before);
    var acts := RunPassIsRun(q, script, r.fn);
    assert forall i :: 0 <= i < |acts| ==> acts[i] in acts;
    SurvivorCalled(q, acts, r);
    PassEnds(q, script);
    OnceIfCalled(RunPass(q, script).0, Call(r, q.data, q.log.pass));
  }

  /** A fire on an idle list calls everything in the list. */
  lemma FireCalls(opts: Options, q: Queue, args: Data, script: seq<Behaviour>)
    requires !q.firing
    ensures IsRun(opts, q) && q.alive && (!q.fired || q.stack.Some?) ==>
              forall r :: r in q.past && Gentle(q.opts, script, r.fn) ==>
                CalledOnce(RunPass(FireWith(q, args), script).0.log.calls, Call(r, args, q.log.pass + 1))
  {
    if IsRun(opts, q) && q.alive && (!q.fired || q.stack.Some?) {
      IsRunStep(opts, q, Do(OpFire(args)));
      var q' := FireWith(q, args);
      assert (q.past + q.ahead)[0..] == q.past + q.ahead;
      forall r | r in q.past && Gentle(q.opts, script, r.fn)
        ensures CalledOnce(RunPass(q', script).0.log.calls, Call(r, args, q.log.pass + 1))
      {
        WholePass(opts, q', script, r);
      }
    }
  }

  /** What is added to an idle list in this state is called: it has a memory, or is bound to have one. */
  ghost predicate Refires(opts: Options, q: Queue) {
    q.alive && (q.memory.Some? || (opts.memory && q.fired && UnstoppedRun(opts, q)))
  }

  ghost predicate UnstoppedRun(opts: Options, q: Queue) {
    exists acts :: q == Run(Init(opts), acts) && Unstopped(opts, acts)
  }

  /** Then the memory holds the arguments of the last fire begun. */
  lemma LastFire(opts: Options, q: Queue)
    requires IsRun(opts, q) && Refires(opts, q)
    ensures q.log.started != [] && q.memory == Some(q.log.started[|q.log.started| - 1])
  {
    if q.memory.None? {
      var acts :| q == Run(Init(opts), acts) && Unstopped(opts, acts);
      MemoryUnlessStopped(opts, acts);
    }
    var acts :| q == Run(Init(opts), acts);
    RunRemembers(opts, acts);
  }

  /** An add on an idle list that refires calls what it has added, with the arguments of the last fire begun; without
      a memory nothing is called. */
  lemma AddCalls(opts: Options, q: Queue, fns: seq<Fn>, script: seq<Behaviour>)
    requires !q.firing
    ensures q.memory.None? ==> RunPass(Add(q, fns), script).0.log == q.log
    ensures IsRun(opts, q) && Refires(opts, q) ==>
              var started := q.log.started;
              started != [] && forall r ::
                r in Fresh(q.past, fns, q.opts.unique, q.nextId) && Gentle(q.opts, script, r.fn) ==>
                CalledOnce(RunPass(Add(q, fns), script).0.log.calls, Call(r, started[|started| - 1], q.log.pass + 1))
  {
    if IsRun(opts, q) && Refires(opts, q) {
      LastFire(opts, q);
      MemoryCalls(opts, q, fns, script, q.memory.value);
    }
  }

  lemma MemoryCalls(opts: Options, q: Queue, fns: seq<Fn>, script: seq<Behaviour>, args: Data)
    requires !q.firing && IsRun(opts, q) && q.alive && q.memory == Some(args)
    ensures forall r :: r in Fresh(q.past, fns, q.opts.unique, q.nextId) && Gentle(q.opts, script, r.fn) ==>
              CalledOnce(RunPass(Add(q, fns), script).0.log.calls, Call(r, args, q.log.pass + 1))
  {
    var acts :| q == Run(Init(opts), acts);
    RunOrderly(opts, acts);
    IsRunStep(opts, q, Do(OpAdd(fns)));
    var q' := Add(q, fns);
    var news := Fresh(q.past, fns, q.opts.unique, q.nextId);
    assert q.past + q.ahead == q.past;
    assert (q.past + news)[|q.past|..] == news;
    forall r | r in news && Gentle(q.opts, script, r.fn)
      ensures CalledOnce(RunPass(q', script).0.log.calls, Call(r, args, q.log.pass + 1))
    {
      WholePass(opts, q', script, r);
    }
  }

  lemma AppendHalves(list: seq<Reg>, news: seq<Reg>, done: int)
    requires 0 <= done <= |list|
    ensures Front(list + news, true, done) == Front(list, true, done)
    ensures Back(list + news, true, done) == Back(list, true, done) + news
  {
  }

  ghost predicate IsRun(opts: Options, q: Queue) {
    exists acts :: q == Run(Init(opts), acts)
  }

  lemma IsRunStep(opts: Options, q: Queue, a: Action)
    ensures IsRun(opts, q) ==> IsRun(opts, Step(q, a))
  {
    if IsRun(opts, q) {
      var acts :| q == Run(Init(opts), acts);
      RunOne(q, a);
      RunAppend(Init(opts), acts, [a]);
      assert Step(q, a) == Run(Init(opts), acts + [a]);
    }
  }

  lemma IsRunPass(opts: Options, q: Queue, script: seq<Behaviour>)
    ensures IsRun(opts, q) ==> IsRun(opts, RunPass(q, script).0)
  {
    if IsRun(opts, q) {
      var acts :| q == Run(Init(opts), acts);
      var more := RunPassIsRun(q, script, 0);
      RunAppend(Init(opts), acts, more);
      assert RunPass(q, script).0 == Run(Init(opts), acts + more);
    }
  }

  /** Splicing out one entry of fn, and what it does to the two halves of the list. */
  lemma CutOne(list: seq<Reg>, done: int, index: nat, fn: Fn)
    requires 0 <= done <= |list| && index < |list| && list[index].fn == fn
    ensures var cut := list[..index] + list[index + 1..];
            var done' := if index < done then done - 1 else done;
            && Without(cut[..done'], fn) == Without(list[..done], fn)
            && Without(cut[done'..], fn) == Without(list[done..], fn)
  {
    var cut := list[..index] + list[index + 1..];
    if index < done {
      assert cut[..done - 1] == list[..index] + list[index + 1..done];
      assert list[..done] == list[..index] + ([list[index]] + list[index + 1..done]);
      assert cut[done - 1..] == list[done..];
      DropOne(list[..index], list[index], list[index + 1..done], fn);
    } else {
      assert cut[done..] == list[done..index] + list[index + 1..];
      assert list[done..] == list[done..index] + ([list[index]] + list[index + 1..]);
      assert cut[..done] == list[..done];
      DropOne(list[done..index], list[index], list[index + 1..], fn);
    }
  }

  lemma CutHalves(list: seq<Reg>, firing: bool, done: int, index: nat, fn: Fn)
    requires firing ==> 0 <= done <= |list|
    requires index < |list| && list[index].fn == fn
    ensures var cut := list[..index] + list[index + 1..];
            var done' := if index < done then done - 1 else done;
            && Without(Front(cut, firing, done'), fn) == Without(Front(list, firing, done), fn)
            && Without(Back(cut, firing, done'), fn) == Without(Back(list, firing, done), fn)
  {
    if firing {
      CutOne(list, done, index, fn);
    } else {
      assert list == list[..index] + ([list[index]] + list[index + 1..]);
      DropOne(list[..index], list[index], list[index + 1..], fn);
    }
  }

  lemma NoneLeft(list: seq<Reg>, firing: bool, done: int, fn: Fn)
    requires forall k :: 0 <= k < |list| ==> list[k].fn != fn
    ensures Without(Front(list, firing, done), fn) == Front(list, firing, done)
    ensures Without(Back(list, firing, done), fn) == Back(list, firing, done)
  {
    WithoutNone(Front(list, firing, done), fn);
    WithoutNone(Back(list, firing, done), fn);
  }

  lemma DropOne(a: seq<Reg>, r: Reg, b: seq<Reg>, fn: Fn)
    requires r.fn == fn
    ensures Without(a + ([r] + b), fn) == Without(a + b, fn)
  {
    WithoutAppend(a, [r] + b, fn);
    WithoutAppend([r], b, fn);
    WithoutAppend(a, b, fn);
    assert [r][..0] == [];
  }

  lemma {:induction false} WithoutNone(rs: seq<Reg>, fn: Fn)
    requires forall k :: 0 <= k < |rs| ==> rs[k].fn != fn
    ensures Without(rs, fn) == rs
  {
    if rs != [] {
      WithoutNone(rs[..|rs| - 1], fn);
      assert rs == rs[..|rs| - 1] + [rs[|rs| - 1]];
    }
  }
}
