/** The meaning of a callback list: a queue of registrations still to be called in the current pass, with the
    history of what was called. The list of module Callbacks, with its index arithmetic, refines it. */
module CallbackQueue {
  import opened Wrappers

  type Fn = nat
  type Data = nat

  datatype Options = Options(once: bool, memory: bool, unique: bool, stopOnFalse: bool)

  /** One successful add. The id tells registrations of the same function apart; ids grow with time. */
  datatype Reg = Reg(id: nat, fn: Fn)

  datatype Call = Call(reg: Reg, data: Data, pass: nat)

  /** past: registrations the pass is done with (the whole list between passes); ahead: those it will still call. */
  datatype Queue = Queue(
    opts: Options, alive: bool, past: seq<Reg>, ahead: seq<Reg>, firing: bool, fired: bool,
    memory: Option<Data>, stack: Option<seq<Data>>, data: Data, nextId: nat, log: Log)

  /** from: the smallest id the current pass covers; accepted and started: the fires taken on and begun. */
  datatype Log = Log(pass: nat, from: nat, calls: seq<Call>, accepted: seq<Data>, started: seq<Data>)

  function Init(opts: Options): Queue {
    Queue(opts, true, [], [], false, false, None, if opts.once then None else Some([]), 0, 0, Log(0, 0, [], [], []))
  }

  function Without(rs: seq<Reg>, fn: Fn): seq<Reg> {
    if rs == [] then []
    else Without(rs[..|rs| - 1], fn) + (if rs[|rs| - 1].fn == fn then [] else [rs[|rs| - 1]])
  }

  predicate Has(rs: seq<Reg>, fn: Fn) {
    exists i :: 0 <= i < |rs| && rs[i].fn == fn
  }

  /** The registrations that adding fns to rs appends. */
  function Fresh(rs: seq<Reg>, fns: seq<Fn>, unique: bool, nextId: nat): seq<Reg>
    decreases |fns|
  {
    if fns == [] then []
    else if unique && Has(rs, fns[0]) then Fresh(rs, fns[1..], unique, nextId)
    else [Reg(nextId, fns[0])] + Fresh(rs + [Reg(nextId, fns[0])], fns[1..], unique, nextId + 1)
  }

  /** A pass over list[start..] begins. */
  function Begin(q: Queue, list: seq<Reg>, start: nat, data: Data): Queue
    requires start <= |list|
  {
    q.(past := list[..start], ahead := list[start..], firing := true, fired := true, data := data,
       memory := if q.opts.memory then Some(data) else None,
       log := q.log.(pass := q.log.pass + 1, from := if start < |list| then list[start].id else q.nextId))
  }

  /** During a pass new registrations join it; on an idle list with memory they are called right away. */
  function Append(q: Queue, news: seq<Reg>): Queue {
    var q' := q.(nextId := q.nextId + |news|);
    if q.firing then q'.(ahead := q.ahead + news)
    else if q.memory.Some? then Begin(q', q.past + q.ahead + news, |q.past + q.ahead|, q.memory.value)
    else q'.(past := q.past + news)
  }

  function Add(q: Queue, fns: seq<Fn>): Queue {
    if !q.alive then q else Append(q, Fresh(q.past + q.ahead, fns, q.opts.unique, q.nextId))
  }

  function RemoveOne(q: Queue, fn: Fn): Queue {
    q.(past := Without(q.past, fn), ahead := Without(q.ahead, fn))
  }

  function Remove(q: Queue, fns: seq<Fn>): Queue
    decreases |fns|
  {
    if fns == [] then q else Remove(RemoveOne(q, fns[0]), fns[1..])
  }

  function Disable(q: Queue): Queue {
    q.(alive := false, past := [], ahead := [], stack := None, memory := None)
  }

  function Lock(q: Queue): Queue {
    if q.memory.None? then Disable(q) else q.(stack := None)
  }

  function FireWith(q: Queue, data: Data): Queue {
    if !q.alive || (q.fired && q.stack.None?) then q
    else
      var q' := q.(log := q.log.(accepted := q.log.accepted + [data]));
      if q.firing && q.stack.Some? then q'.(stack := Some(q.stack.value + [data]))
      else Begin(q'.(log := q'.log.(started := q.log.started + [data])), q.past + q.ahead, 0, data)
  }

  /** The end of a pass: the next stacked fire, or for a list that fires once, forgetting the callbacks. */
  function End(q: Queue): Queue {
    var q' := q.(firing := false, past := q.past + q.ahead, ahead := []);
    if !q.alive then q'
    else if q.stack.Some? then
      if q.stack.value == [] then q'
      else
        var data := q.stack.value[0];
        Begin(q'.(stack := Some(q.stack.value[1..]), log := q.log.(started := q.log.started + [data])),
              q'.past, 0, data)
    else if q.memory.Some? then q'.(past := [])
    else Disable(q')
  }

  function CallHead(q: Queue): Queue
    requires q.ahead != []
  {
    q.(past := q.past + [q.ahead[0]], ahead := q.ahead[1..],
       log := q.log.(calls := q.log.calls + [Call(q.ahead[0], q.data, q.log.pass)]))
  }

  /** One turn of the firing loop. */
  function Turn(q: Queue): Queue {
    if !q.firing then q
    else if q.alive && q.ahead != [] then CallHead(q)
    else End(q)
  }

  /** A callback returned false on a stopOnFalse list. */
  function Stop(q: Queue): Queue {
    if q.firing && q.opts.stopOnFalse then End(q.(memory := None)) else q
  }

  /** empty, which is only meant for a list that is not firing: it also makes a disabled list usable again. */
  function Empty(q: Queue): Queue {
    if q.firing then q else q.(alive := true, past := [], ahead := [])
  }

  // ---- runs ----

  datatype Op = OpAdd(fns: seq<Fn>) | OpRemove(fns: seq<Fn>) | OpFire(data: Data) | OpDisable | OpLock

  datatype Action = Do(op: Op) | Turning | Stopping | Emptying

  function Perform(q: Queue, op: Op): Queue {
    match op
    case OpAdd(fns) => Add(q, fns)
    case OpRemove(fns) => Remove(q, fns)
    case OpFire(data) => FireWith(q, data)
    case OpDisable => Disable(q)
    case OpLock => Lock(q)
  }

  function Step(q: Queue, a: Action): Queue {
    match a
    case Do(op) => Perform(q, op)
    case Turning => Turn(q)
    case Stopping => Stop(q)
    case Emptying => Empty(q)
  }

  function Run(q: Queue, acts: seq<Action>): Queue
    decreases |acts|
  {
    if acts == [] then q else Step(Run(q, acts[..|acts| - 1]), acts[|acts| - 1])
  }

  // ---- what every run keeps ----

  ghost predicate Ascending(rs: seq<Reg>, below: nat) {
    && (forall i, j :: 0 <= i < j < |rs| ==> rs[i].id < rs[j].id)
    && (forall i :: 0 <= i < |rs| ==> rs[i].id < below)
  }

  /** Passes follow one another; within a pass, calls go up the list, with one set of arguments. */
  ghost predicate CallsInOrder(q: Queue) {
    var calls := q.log.calls;
    && (forall i :: 0 <= i < |calls| ==> calls[i].pass <= q.log.pass && calls[i].reg.id < q.nextId)
    && (forall i, j :: 0 <= i < j < |calls| ==> calls[i].pass <= calls[j].pass)
    && (forall i, j :: 0 <= i < j < |calls| && calls[i].pass == calls[j].pass ==>
          calls[i].reg.id < calls[j].reg.id && calls[i].data == calls[j].data)
  }

  /** In the pass under way: its calls lie before what is ahead, and every survivor left behind was called. */
  ghost predicate PassOnTrack(q: Queue) {
    var calls := q.log.calls;
    && (forall i :: 0 <= i < |calls| && calls[i].pass == q.log.pass ==>
          calls[i].data == q.data && q.log.from <= calls[i].reg.id)
    && (forall i, r :: 0 <= i < |calls| && calls[i].pass == q.log.pass && r in q.ahead ==> calls[i].reg.id < r.id)
    && (forall r :: r in q.ahead ==> q.log.from <= r.id)
    && (forall r :: r in q.past && q.log.from <= r.id ==> Call(r, q.data, q.log.pass) in calls)
  }

  ghost predicate Orderly(q: Queue) {
    && Ascending(q.past + q.ahead, q.nextId)
    && q.log.from <= q.nextId
    && (if q.firing then q.fired && PassOnTrack(q) else q.ahead == [])
    && CallsInOrder(q)
  }

  /** Fires begin in the order in which they were taken on, and on a repeatable list none is lost. */
  ghost predicate Fifo(q: Queue) {
    && q.log.started <= q.log.accepted
    && (q.stack.Some? ==> q.log.accepted == q.log.started + q.stack.value)
    && (q.stack.Some? && !q.firing ==> q.stack.value == [])
    && (!q.alive ==> q.past == q.ahead == [] && q.stack.None? && q.memory.None?)
    && (q.memory.Some? || q.firing ==> q.fired)
    && (!q.fired ==> q.log.accepted == [])
  }

  ghost predicate Numbered(news: seq<Reg>, first: nat) {
    forall i :: 0 <= i < |news| ==> news[i].id == first + i
  }

  lemma {:induction false} FreshIds(rs: seq<Reg>, fns: seq<Fn>, unique: bool, nextId: nat)
    ensures Numbered(Fresh(rs, fns, unique, nextId), nextId)
    decreases |fns|
  {
    if fns == [] {
    } else if unique && Has(rs, fns[0]) {
      FreshIds(rs, fns[1..], unique, nextId);
    } else {
      var r := Reg(nextId, fns[0]);
      FreshIds(rs + [r], fns[1..], unique, nextId + 1);
      var rest := Fresh(rs + [r], fns[1..], unique, nextId + 1);
      assert Fresh(rs, fns, unique, nextId) == [r] + rest;
    }
  }

  ghost predicate NoRepeats(rs: seq<Reg>) {
    forall i, j :: 0 <= i < j < |rs| ==> rs[i].fn != rs[j].fn
  }

  /** Afterwards the list has just the functions it had and those added; a unique list still has each once, and any
      other gets one more registration for every argument, in order. */
  lemma {:induction false} FreshMeaning(rs: seq<Reg>, fns: seq<Fn>, unique: bool, nextId: nat)
    ensures var all := rs + Fresh(rs, fns, unique, nextId);
            && (forall fn :: Has(all, fn) <==> Has(rs, fn) || fn in fns)
            && (unique && NoRepeats(rs) ==> NoRepeats(all))
    ensures !unique ==> Functions(Fresh(rs, fns, unique, nextId)) == fns
    decreases |fns|
  {
    if fns == [] {
      assert rs + [] == rs;
    } else if unique && Has(rs, fns[0]) {
      FreshMeaning(rs, fns[1..], unique, nextId);
    } else {
      var r := Reg(nextId, fns[0]);
      FreshMeaning(rs + [r], fns[1..], unique, nextId + 1);
      HasSnoc(rs, r);
      var rest := Fresh(rs + [r], fns[1..], unique, nextId + 1);
      assert rs + ([r] + rest) == rs + [r] + rest;
      FunctionsAppend([r], rest);
      assert Functions([r]) == [r.fn];
    }
  }

  lemma HasSnoc(rs: seq<Reg>, r: Reg)
    ensures forall fn :: Has(rs + [r], fn) <==> Has(rs, fn) || fn == r.fn
  {
    assert (rs + [r])[|rs|] == r;
    forall fn | Has(rs, fn) ensures Has(rs + [r], fn) {
      var i :| 0 <= i < |rs| && rs[i].fn == fn;
      assert (rs + [r])[i].fn == fn;
    }
  }

  /** The functions of a list of registrations, in order. */
  function Functions(rs: seq<Reg>): (fns: seq<Fn>)
    ensures |fns| == |rs| && forall i :: 0 <= i < |rs| ==> fns[i] == rs[i].fn
  {
    seq(|rs|, i requires 0 <= i < |rs| => rs[i].fn)
  }

  lemma FunctionsAppend(a: seq<Reg>, b: seq<Reg>)
    ensures Functions(a + b) == Functions(a) + Functions(b)
  {
  }

  /** Without keeps exactly the registrations of other functions. */
  lemma {:induction false} WithoutMeaning(rs: seq<Reg>, fn: Fn)
    ensures forall r :: r in Without(rs, fn) <==> r in rs && r.fn != fn
  {
    if rs != [] {
      var n := |rs| - 1;
      WithoutMeaning(rs[..n], fn);
      assert rs == rs[..n] + [rs[n]];
    }
  }

  lemma {:induction false} WithoutAscending(rs: seq<Reg>, fn: Fn, below: nat)
    requires Ascending(rs, below)
    ensures Ascending(Without(rs, fn), below)
  {
    if rs != [] {
      var n := |rs| - 1;
      WithoutAscending(rs[..n], fn, below);
      WithoutBelow(rs[..n], fn, rs[n].id);
      var w := Without(rs[..n], fn);
      AscendingSnoc(w, rs[n], below);
      assert w + [] == w;
    }
  }

  lemma WithoutBelow(rs: seq<Reg>, fn: Fn, id: nat)
    requires forall i :: 0 <= i < |rs| ==> rs[i].id < id
    ensures forall i :: 0 <= i < |Without(rs, fn)| ==> Without(rs, fn)[i].id < id
  {
    WithoutMeaning(rs, fn);
    var w := Without(rs, fn);
    forall i | 0 <= i < |w| ensures w[i].id < id { assert w[i] in rs; }
  }

  lemma AscendingSnoc(rs: seq<Reg>, r: Reg, below: nat)
    requires Ascending(rs, below) && r.id < below && forall i :: 0 <= i < |rs| ==> rs[i].id < r.id
    ensures Ascending(rs + [r], below)
  {
  }

  lemma {:induction false} WithoutAppend(a: seq<Reg>, b: seq<Reg>, fn: Fn)
    ensures Without(a + b, fn) == Without(a, fn) + Without(b, fn)
  {
    if b == [] {
      assert a + b == a;
    } else {
      var n := |b| - 1;
      assert (a + b)[..|a + b| - 1] == a + b[..n];
      WithoutAppend(a, b[..n], fn);
    }
  }

  lemma BeginKeeps(q: Queue, list: seq<Reg>, start: nat, data: Data)
    requires start <= |list| && Ascending(list, q.nextId) && CallsInOrder(q)
    ensures Orderly(Begin(q, list, start, data))
  {
    assert list[..start] + list[start..] == list;
  }

  lemma AscendingAppend(rs: seq<Reg>, news: seq<Reg>, below: nat)
    requires Ascending(rs, below) && Numbered(news, below)
    ensures Ascending(rs + news, below + |news|)
  {
    var all := rs + news;
    forall i | 0 <= i < |all| ensures all[i].id < below + |news| {
      assert all[i] == if i < |rs| then rs[i] else news[i - |rs|];
    }
    forall i, j | 0 <= i < j < |all| ensures all[i].id < all[j].id {
      assert all[i] == if i < |rs| then rs[i] else news[i - |rs|];
      assert all[j] == if j < |rs| then rs[j] else news[j - |rs|];
    }
  }

  lemma AppendFiring(q: Queue, news: seq<Reg>)
    requires Orderly(q) && q.firing && Numbered(news, q.nextId)
    ensures Orderly(Append(q, news))
  {
    var q' := Append(q, news);
    assert q.past + (q.ahead + news) == q.past + q.ahead + news;
    AscendingAppend(q.past + q.ahead, news, q.nextId);
    forall r | r in q'.ahead ensures r in q.ahead || r.id >= q.nextId {
      var k :| 0 <= k < |q'.ahead| && q'.ahead[k] == r;
      assert k >= |q.ahead| ==> r == news[k - |q.ahead|];
    }
  }

  lemma AppendIdle(q: Queue, news: seq<Reg>)
    requires Orderly(q) && !q.firing && q.memory.None? && Numbered(news, q.nextId)
    ensures Orderly(Append(q, news))
  {
    assert q.past + [] == q.past && q.past + news + [] == q.past + news;
    AscendingAppend(q.past, news, q.nextId);
  }

  lemma AppendRefiring(q: Queue, news: seq<Reg>)
    requires Orderly(q) && !q.firing && q.memory.Some? && Numbered(news, q.nextId)
    ensures Orderly(Append(q, news))
  {
    AscendingAppend(q.past + q.ahead, news, q.nextId);
    BeginKeeps(q.(nextId := q.nextId + |news|), q.past + q.ahead + news, |q.past + q.ahead|, q.memory.value);
    assert Append(q, news)
        == Begin(q.(nextId := q.nextId + |news|), q.past + q.ahead + news, |q.past + q.ahead|, q.memory.value);
  }

  lemma AddKeeps(q: Queue, fns: seq<Fn>)
    requires Orderly(q)
    ensures Orderly(Add(q, fns))
  {
    if q.alive {
      var news := Fresh(q.past + q.ahead, fns, q.opts.unique, q.nextId);
      FreshIds(q.past + q.ahead, fns, q.opts.unique, q.nextId);
      if q.firing {
        AppendFiring(q, news);
      } else if q.memory.Some? {
        AppendRefiring(q, news);
      } else {
        AppendIdle(q, news);
      }
    }
  }

  lemma RemoveOneKeeps(q: Queue, fn: Fn)
    requires Orderly(q)
    ensures Orderly(RemoveOne(q, fn))
  {
    WithoutAppend(q.past, q.ahead, fn);
    WithoutAscending(q.past + q.ahead, fn, q.nextId);
    WithoutMeaning(q.past, fn);
    WithoutMeaning(q.ahead, fn);
  }

  lemma {:induction false} RemoveKeeps(q: Queue, fns: seq<Fn>)
    requires Orderly(q)
    ensures Orderly(Remove(q, fns))
    decreases |fns|
  {
    if fns != [] {
      RemoveOneKeeps(q, fns[0]);
      RemoveKeeps(RemoveOne(q, fns[0]), fns[1..]);
    }
  }

  lemma EndKeeps(q: Queue)
    requires Orderly(q)
    ensures Orderly(End(q))
  {
    if q.alive && q.stack.Some? && q.stack.value != [] {
      var data := q.stack.value[0];
      var q' := q.(firing := false, past := q.past + q.ahead, ahead := [], stack := Some(q.stack.value[1..]),
                   log := q.log.(started := q.log.started + [data]));
      BeginKeeps(q', q'.past, 0, data);
    } else {
      assert q.past + q.ahead + [] == q.past + q.ahead;
    }
  }

  lemma CallHeadOrder(q: Queue)
    requires Orderly(q) && q.firing && q.ahead != []
    ensures CallsInOrder(CallHead(q))
  {
    assert q.ahead[0] in q.ahead;
    assert (q.past + q.ahead)[|q.past|] == q.ahead[0];
  }

  lemma CallHeadTrack(q: Queue)
    requires Orderly(q) && q.firing && q.ahead != []
    ensures PassOnTrack(CallHead(q))
  {
    var q' := CallHead(q);
    var r0 := q.ahead[0];
    var c := Call(r0, q.data, q.log.pass);
    var calls, calls' := q.log.calls, q'.log.calls;
    assert calls'[|calls|] == c && c in calls';
    assert forall i :: 0 <= i < |calls| ==> calls'[i] == calls[i];
    assert r0 in q.ahead;
    forall r | r in q'.ahead ensures r in q.ahead && r0.id < r.id {
      var k :| 0 <= k < |q'.ahead| && q'.ahead[k] == r;
      var list := q.past + q.ahead;
      assert list[|q.past| + 1 + k] == r && list[|q.past|] == r0;
    }
    forall r | r in q'.past && q.log.from <= r.id ensures Call(r, q.data, q.log.pass) in calls' {
      if r != r0 {
        assert r in q.past;
        assert Call(r, q.data, q.log.pass) in calls;
      }
    }
  }

  lemma CallHeadKeeps(q: Queue)
    requires Orderly(q) && q.firing && q.ahead != []
    ensures Orderly(CallHead(q))
  {
    CallHeadOrder(q);
    CallHeadTrack(q);
    assert CallHead(q).past + CallHead(q).ahead == q.past + q.ahead;
  }

  lemma FireKeeps(q: Queue, data: Data)
    requires Orderly(q)
    ensures Orderly(FireWith(q, data))
  {
    var q' := q.(log := q.log.(accepted := q.log.accepted + [data]));
    if q.firing && q.stack.Some? {
      assert PassOnTrack(q'.(stack := Some(q.stack.value + [data])));
    } else {
      BeginKeeps(q'.(log := q'.log.(started := q.log.started + [data])), q.past + q.ahead, 0, data);
    }
  }

  lemma DisableKeeps(q: Queue)
    requires Orderly(q)
    ensures Orderly(Disable(q))
  {
  }

  lemma LockKeeps(q: Queue)
    requires Orderly(q)
    ensures Orderly(Lock(q))
  {
    if q.memory.None? { DisableKeeps(q); }
  }

  lemma PerformKeeps(q: Queue, op: Op)
    requires Orderly(q)
    ensures Orderly(Perform(q, op))
  {
    match op
    case OpAdd(fns) => AddKeeps(q, fns);
    case OpRemove(fns) => RemoveKeeps(q, fns);
    case OpFire(data) => FireKeeps(q, data);
    case OpDisable => DisableKeeps(q);
    case OpLock => LockKeeps(q);
  }

  lemma TurnKeeps(q: Queue)
    requires Orderly(q)
    ensures Orderly(Turn(q))
  {
    if q.firing && q.alive && q.ahead != [] { CallHeadKeeps(q); } else { EndKeeps(q); }
  }

  lemma StopKeeps(q: Queue)
    requires Orderly(q)
    ensures Orderly(Stop(q))
  {
    assert Orderly(q.(memory := None));
    EndKeeps(q.(memory := None));
  }

  lemma StepKeeps(q: Queue, a: Action)
    requires Orderly(q)
    ensures Orderly(Step(q, a))
  {
    match a
    case Do(op) => PerformKeeps(q, op);
    case Turning => TurnKeeps(q);
    case Stopping => StopKeeps(q);
    case Emptying =>
  }

  /** On every run of a list, whatever its options and whatever the callbacks do. */
  lemma {:induction false} RunOrderly(opts: Options, acts: seq<Action>)
    ensures Orderly(Run(Init(opts), acts))
    decreases |acts|
  {
    if acts != [] {
      var n := |acts| - 1;
      RunOrderly(opts, acts[..n]);
      StepKeeps(Run(Init(opts), acts[..n]), acts[n]);
    }
  }

  // ---- what becomes of a registration that is waiting ----

  /** An action that neither takes the function out of the list nor puts an end to the pass. */
  predicate Spares(a: Action, fn: Fn) {
    match a
    case Do(OpAdd(_)) => true
    case Do(OpRemove(fns)) => fn !in fns
    case Do(OpFire(_)) => true
    case Do(OpDisable) => false
    case Do(OpLock) => false
    case Turning => true
    case Stopping => false
    case Emptying => false
  }

  /** r is still waiting in the given pass, or was called in it. */
  ghost predicate WaitingOrCalled(q: Queue, r: Reg, data: Data, pass: nat) {
    || (q.alive && q.firing && q.data == data && q.log.pass == pass && r in q.ahead)
    || Call(r, data, pass) in q.log.calls
  }

  lemma StepLogs(q: Queue, a: Action)
    ensures q.log.calls <= Step(q, a).log.calls
  {
    match a
    case Do(OpRemove(fns)) => RemoveOnly(q, fns);
    case _ =>
  }

  lemma StepWaiting(q: Queue, a: Action, r: Reg)
    requires q.alive && q.firing && q.fired && r in q.ahead && Spares(a, r.fn)
    ensures WaitingOrCalled(Step(q, a), r, q.data, q.log.pass)
  {
    match a
    case Do(OpRemove(fns)) =>
      RemoveOnly(q, fns);
      RemoveMeaning(q, fns, r);
    case Turning =>
      var c := Call(q.ahead[0], q.data, q.log.pass);
      assert CallHead(q).log.calls[|q.log.calls|] == c;
      assert q.ahead == [q.ahead[0]] + q.ahead[1..];
    case _ =>
  }

  lemma StepKeepsWaiting(q: Queue, a: Action, r: Reg, data: Data, pass: nat)
    requires Orderly(q) && WaitingOrCalled(q, r, data, pass) && Spares(a, r.fn)
    ensures WaitingOrCalled(Step(q, a), r, data, pass)
  {
    if Call(r, data, pass) in q.log.calls {
      StepLogs(q, a);
      var i :| 0 <= i < |q.log.calls| && q.log.calls[i] == Call(r, data, pass);
      assert Step(q, a).log.calls[i] == Call(r, data, pass);
    } else {
      StepWaiting(q, a, r);
    }
  }

  /** A registration the pass has yet to come to is called in that pass with its arguments, and otherwise still
      waiting for it: nothing but its removal, or the end of the whole pass by disable, lock or stop, can prevent it. */
  lemma {:induction false} SurvivorCalled(q: Queue, acts: seq<Action>, r: Reg)
    requires Orderly(q) && q.alive && q.firing && r in q.ahead
    requires forall i :: 0 <= i < |acts| ==> Spares(acts[i], r.fn)
    ensures Orderly(Run(q, acts)) && WaitingOrCalled(Run(q, acts), r, q.data, q.log.pass)
    ensures Run(q, acts).log.pass != q.log.pass || !Run(q, acts).firing ==>
              Call(r, q.data, q.log.pass) in Run(q, acts).log.calls
    decreases |acts|
  {
    if acts != [] {
      var n := |acts| - 1;
      SurvivorCalled(q, acts[..n], r);
      StepKeeps(Run(q, acts[..n]), acts[n]);
      StepKeepsWaiting(Run(q, acts[..n]), acts[n], r, q.data, q.log.pass);
    }
  }

  /** What add appends during a pass waits in that pass like everything before it. */
  lemma AddedJoinsPass(q: Queue, fns: seq<Fn>, r: Reg)
    requires q.alive && q.firing && r in Fresh(q.past + q.ahead, fns, q.opts.unique, q.nextId)
    ensures var q' := Add(q, fns);
            r in q'.ahead && q'.log.pass == q.log.pass && q'.firing && q'.data == q.data
  {
  }

  // ---- fires ----

  lemma {:induction false} RemoveOnly(q: Queue, fns: seq<Fn>)
    ensures Remove(q, fns) == q.(past := Remove(q, fns).past, ahead := Remove(q, fns).ahead)
    ensures forall r :: r in Remove(q, fns).past + Remove(q, fns).ahead ==> r in q.past + q.ahead
    decreases |fns|
  {
    if fns != [] {
      RemoveOnly(RemoveOne(q, fns[0]), fns[1..]);
      WithoutMeaning(q.past, fns[0]);
      WithoutMeaning(q.ahead, fns[0]);
    }
  }

  lemma {:induction false} RemoveNothing(q: Queue, fns: seq<Fn>)
    requires q.past == q.ahead == []
    ensures Remove(q, fns) == q
    decreases |fns|
  {
    if fns != [] {
      assert RemoveOne(q, fns[0]) == q;
      RemoveNothing(q, fns[1..]);
    }
  }

  /** A live list that has not fired, or still repeats, takes the fire on, also during a pass; no other does. */
  lemma FireTaken(q: Queue, data: Data)
    ensures if q.alive && (!q.fired || q.stack.Some?)
            then FireWith(q, data).log.accepted == q.log.accepted + [data]
            else FireWith(q, data) == q
  {
  }

  /** A false that stops ends the pass without another call, and is followed by a stacked fire or by no memory. */
  lemma StopEnds(q: Queue)
    requires q.firing && q.opts.stopOnFalse && Fifo(q)
    ensures var q' := Stop(q);
            && q'.log.calls == q.log.calls
            && (if q'.firing then q'.log.pass == q.log.pass + 1 && q.log.started < q'.log.started
                else q'.memory.None? && q'.log.pass == q.log.pass)
  {
  }

  lemma StepFifo(q: Queue, a: Action)
    requires Fifo(q)
    ensures Fifo(Step(q, a))
  {
    match a
    case Do(OpRemove(fns)) =>
      RemoveOnly(q, fns);
      if !q.alive { RemoveNothing(q, fns); }
    case _ =>
  }

  /** On every run, fires begin in the order they were taken on; on a list that still repeats, all those
      not yet begun are waiting in the stack. */
  lemma {:induction false} RunFifo(opts: Options, acts: seq<Action>)
    ensures Fifo(Run(Init(opts), acts))
    decreases |acts|
  {
    if acts != [] {
      var n := |acts| - 1;
      RunFifo(opts, acts[..n]);
      StepFifo(Run(Init(opts), acts[..n]), acts[n]);
    }
  }

  // ---- unique lists ----

  lemma {:induction false} WithoutNoRepeats(rs: seq<Reg>, fn: Fn)
    requires NoRepeats(rs)
    ensures NoRepeats(Without(rs, fn))
  {
    if rs != [] {
      var n := |rs| - 1;
      WithoutNoRepeats(rs[..n], fn);
      WithoutMeaning(rs[..n], fn);
      var w := Without(rs[..n], fn);
      forall i | 0 <= i < |w| ensures w[i].fn != rs[n].fn { assert w[i] in rs[..n]; }
    }
  }

  lemma {:induction false} RemoveNoRepeats(q: Queue, fns: seq<Fn>)
    requires NoRepeats(q.past + q.ahead)
    ensures NoRepeats(Remove(q, fns).past + Remove(q, fns).ahead)
    decreases |fns|
  {
    if fns != [] {
      WithoutAppend(q.past, q.ahead, fns[0]);
      WithoutNoRepeats(q.past + q.ahead, fns[0]);
      RemoveNoRepeats(RemoveOne(q, fns[0]), fns[1..]);
    }
  }

  lemma AddNoRepeats(q: Queue, fns: seq<Fn>)
    requires q.opts.unique && NoRepeats(q.past + q.ahead) && (!q.firing ==> q.ahead == [])
    ensures NoRepeats(Add(q, fns).past + Add(q, fns).ahead)
  {
    var list := q.past + q.ahead;
    var news := Fresh(list, fns, true, q.nextId);
    FreshMeaning(list, fns, true, q.nextId);
    if !q.alive {
    } else if q.firing {
      assert q.past + (q.ahead + news) == list + news;
    } else if q.memory.Some? {
      assert (list + news)[..|list|] + (list + news)[|list|..] == list + news;
    } else {
      assert Add(q, fns).past + Add(q, fns).ahead == list + news;
    }
  }

  lemma StepNoRepeats(q: Queue, a: Action)
    requires q.opts.unique && NoRepeats(q.past + q.ahead) && (!q.firing ==> q.ahead == [])
    ensures NoRepeats(Step(q, a).past + Step(q, a).ahead)
  {
    match a
    case Do(OpAdd(fns)) => AddNoRepeats(q, fns);
    case Do(OpRemove(fns)) => RemoveNoRepeats(q, fns);
    case Do(OpFire(data)) => assert (q.past + q.ahead)[..0] + (q.past + q.ahead)[0..] == q.past + q.ahead;
    case Turning => TurnNoRepeats(q);
    case Stopping => EndNoRepeats(q.(memory := None));
    case _ =>
  }

  lemma TurnNoRepeats(q: Queue)
    requires NoRepeats(q.past + q.ahead)
    ensures NoRepeats(Turn(q).past + Turn(q).ahead)
  {
    if q.alive && q.ahead != [] {
      assert q.past + [q.ahead[0]] + q.ahead[1..] == q.past + q.ahead;
    } else {
      EndNoRepeats(q);
    }
  }

  lemma EndNoRepeats(q: Queue)
    requires NoRepeats(q.past + q.ahead)
    ensures NoRepeats(End(q).past + End(q).ahead)
  {
    var list := q.past + q.ahead;
    assert list[..0] + list[0..] == list && list + [] == list;
  }

  /** On every run a unique list holds no function twice. */
  lemma {:induction false} RunUnique(opts: Options, acts: seq<Action>)
    requires opts.unique
    ensures NoRepeats(Run(Init(opts), acts).past + Run(Init(opts), acts).ahead)
    decreases |acts|
  {
    if acts != [] {
      var n := |acts| - 1;
      RunUnique(opts, acts[..n]);
      RunOrderly(opts, acts[..n]);
      RunRemembers(opts, acts[..n]);
      StepNoRepeats(Run(Init(opts), acts[..n]), acts[n]);
    }
  }

  // ---- what is remembered ----

  /** A memory holds the arguments of the last fire that has begun, and so does the pass under way. */
  ghost predicate Remembers(q: Queue) {
    var started := q.log.started;
    && (q.memory.Some? ==> q.opts.memory)
    && (q.memory.Some? || q.firing || q.fired ==> started != [])
    && (q.memory.Some? ==> q.memory.value == started[|started| - 1])
    && (q.firing ==> q.data == started[|started| - 1])
  }

  /** No action has made the list forget: no callback has stopped a pass, and it was not revived after disable. */
  ghost predicate Unstopped(opts: Options, acts: seq<Action>) {
    (opts.stopOnFalse ==> Stopping !in acts) && (Do(OpDisable) !in acts || Emptying !in acts)
  }

  lemma AddRemembers(q: Queue, fns: seq<Fn>)
    requires Remembers(q)
    ensures Remembers(Add(q, fns)) && Add(q, fns).opts == q.opts
  {
  }

  lemma FireRemembers(q: Queue, data: Data)
    requires Remembers(q)
    ensures Remembers(FireWith(q, data)) && FireWith(q, data).opts == q.opts
  {
  }

  lemma EndRemembers(q: Queue)
    requires Remembers(q)
    ensures Remembers(End(q)) && End(q).opts == q.opts
  {
  }

  lemma StepRemembers(q: Queue, a: Action)
    requires Remembers(q)
    ensures Remembers(Step(q, a)) && Step(q, a).opts == q.opts
  {
    match a
    case Do(OpAdd(fns)) => AddRemembers(q, fns);
    case Do(OpRemove(fns)) => RemoveOnly(q, fns);
    case Do(OpFire(data)) => FireRemembers(q, data);
    case Turning => if q.firing && (!q.alive || q.ahead == []) { EndRemembers(q); }
    case Stopping => EndRemembers(q.(memory := None));
    case _ =>
  }

  /** On every run: what the list remembers, and fires again when something is added, is the last fire begun. */
  lemma {:induction false} RunRemembers(opts: Options, acts: seq<Action>)
    ensures Remembers(Run(Init(opts), acts)) && Run(Init(opts), acts).opts == opts
    decreases |acts|
  {
    if acts != [] {
      var n := |acts| - 1;
      RunRemembers(opts, acts[..n]);
      StepRemembers(Run(Init(opts), acts[..n]), acts[n]);
    }
  }

  lemma StepMemory(q: Queue, a: Action)
    requires q.opts.memory && (q.opts.stopOnFalse ==> a != Stopping)
    requires q.fired && q.alive ==> q.memory.Some?
    ensures a != Emptying && Step(q, a).fired && Step(q, a).alive ==> Step(q, a).memory.Some?
    ensures a != Do(OpDisable) && (q.fired ==> q.memory.Some?) && Step(q, a).fired ==> Step(q, a).memory.Some?
  {
    if a.Do? && a.op.OpRemove? { RemoveOnly(q, a.op.fns); }
  }

  /** A live list with the memory option that has fired has a memory, unless it was stopped. */
  lemma {:induction false} MemoryUnlessStopped(opts: Options, acts: seq<Action>)
    requires opts.memory && Unstopped(opts, acts)
    ensures var q := Run(Init(opts), acts);
            q.fired && (q.alive || Do(OpDisable) !in acts) ==> q.memory.Some?
    decreases |acts|
  {
    if acts != [] {
      var n := |acts| - 1;
      assert acts[n] in acts && forall a :: a in acts[..n] ==> a in acts;
      MemoryUnlessStopped(opts, acts[..n]);
      RunRemembers(opts, acts[..n]);
      StepMemory(Run(Init(opts), acts[..n]), acts[n]);
    }
  }

  // ---- removal ----

  /** No registration with this id is left in the list. */
  ghost predicate Gone(q: Queue, id: nat) {
    id < q.nextId && forall r :: r in q.past + q.ahead ==> r.id != id
  }

  ghost predicate CallsExtended(before: Queue, after: Queue, id: nat) {
    && before.log.calls <= after.log.calls
    && forall i :: |before.log.calls| <= i < |after.log.calls| ==> after.log.calls[i].reg.id != id
  }

  lemma AddGone(q: Queue, fns: seq<Fn>, id: nat)
    requires Gone(q, id)
    ensures Gone(Add(q, fns), id)
  {
    var list := q.past + q.ahead;
    var news := Fresh(list, fns, q.opts.unique, q.nextId);
    FreshIds(list, fns, q.opts.unique, q.nextId);
    assert forall r :: r in news ==> r.id >= q.nextId;
    if q.alive && !q.firing && q.memory.Some? {
      var all := list + news;
      assert all[..|list|] + all[|list|..] == all;
    }
  }

  lemma TurnGone(q: Queue, id: nat)
    requires Gone(q, id)
    ensures Gone(Turn(q), id) && CallsExtended(q, Turn(q), id)
  {
    if q.firing && q.alive && q.ahead != [] { assert q.ahead[0] in q.past + q.ahead; }
  }

  lemma StepGone(q: Queue, a: Action, id: nat)
    requires Gone(q, id)
    ensures Gone(Step(q, a), id) && CallsExtended(q, Step(q, a), id)
  {
    match a
    case Do(OpAdd(fns)) => AddGone(q, fns, id);
    case Do(OpRemove(fns)) => RemoveOnly(q, fns);
    case Do(OpFire(data)) => assert (q.past + q.ahead)[..0] + (q.past + q.ahead)[0..] == q.past + q.ahead;
    case Do(OpDisable) =>
    case Do(OpLock) =>
    case Turning => TurnGone(q, id);
    case Stopping =>
    case Emptying =>
  }

  /** Once a registration has left the list it is never called again, whatever happens next. */
  lemma {:induction false} RemovedNeverCalled(q: Queue, acts: seq<Action>, id: nat)
    requires Gone(q, id)
    ensures Gone(Run(q, acts), id) && CallsExtended(q, Run(q, acts), id)
    decreases |acts|
  {
    if acts != [] {
      var n := |acts| - 1;
      RemovedNeverCalled(q, acts[..n], id);
      StepGone(Run(q, acts[..n]), acts[n], id);
    }
  }

  /** remove really takes every registration of the function out of the list, and nothing else. */
  lemma {:induction false} RemoveMeaning(q: Queue, fns: seq<Fn>, r: Reg)
    ensures r in Remove(q, fns).past <==> r in q.past && r.fn !in fns
    ensures r in Remove(q, fns).ahead <==> r in q.ahead && r.fn !in fns
    decreases |fns|
  {
    if fns != [] {
      WithoutMeaning(q.past, fns[0]);
      WithoutMeaning(q.ahead, fns[0]);
      RemoveMeaning(RemoveOne(q, fns[0]), fns[1..], r);
    }
  }

  /** c is among the calls, and no other call of its pass is of the same registration. */
  ghost predicate CalledOnce(calls: seq<Call>, c: Call) {
    exists i :: 0 <= i < |calls| && calls[i] == c && OnlyCall(calls, i)
  }

  ghost predicate OnlyCall(calls: seq<Call>, i: nat)
    requires i < |calls|
  {
    forall j :: 0 <= j < |calls| && j != i && calls[j].pass == calls[i].pass ==> calls[j].reg.id != calls[i].reg.id
  }

  /** When a pass comes to its end, the registrations it called are in list order, each once, and they include
      every one in the list that the pass covers. */
  lemma PassComplete(opts: Options, acts: seq<Action>, r: Reg)
    ensures var q := Run(Init(opts), acts);
            q.firing && q.ahead == [] && r in q.past && q.log.from <= r.id ==>
              CalledOnce(q.log.calls, Call(r, q.data, q.log.pass))
  {
    var q := Run(Init(opts), acts);
    var calls := q.log.calls;
    RunOrderly(opts, acts);
    if q.firing && q.ahead == [] && r in q.past && q.log.from <= r.id {
      OnceIfCalled(q, Call(r, q.data, q.log.pass));
    }
  }

  lemma OnceIfCalled(q: Queue, c: Call)
    requires CallsInOrder(q) && c in q.log.calls
    ensures CalledOnce(q.log.calls, c)
  {
    var i :| 0 <= i < |q.log.calls| && q.log.calls[i] == c;
    assert OnlyCall(q.log.calls, i);
  }
}
