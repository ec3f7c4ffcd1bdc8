/** jQuery.when over any number of arguments but one: a counter of the subordinates still to be resolved. */
module When {
  import opened Wrappers

  type Val = nat

  /** An argument of when: a promise, or a value that counts as resolved. */
  datatype Arg = Plain(v: Val) | Promise

  /** An entry of resolveValues: the argument itself, or what its promise was resolved with. */
  datatype Entry = Original(arg: Arg) | One(value: Option<Val>) | Many(values: seq<Val>)

  /** More than one argument is kept as a list, and otherwise just the value, if any. */
  function Stored(args: seq<Val>): Entry {
    if |args| > 1 then Many(args) else One(if args == [] then None else Some(args[0]))
  }

  /** The entry holds the arguments: a single one as it is, nothing for none, and several as a list. */
  predicate Keeps(entry: Entry, args: seq<Val>) {
    match entry
    case Original(_) => false
    case One(None) => args == []
    case One(Some(v)) => args == [v]
    case Many(vs) => vs == args && |vs| > 1
  }

  datatype Master = Waiting | Resolved(contexts: seq<Option<Val>>, values: seq<Entry>) | Rejected(args: seq<Val>)

  /** A call of a callback: its this and its arguments. */
  datatype Firing = Firing(context: Val, args: seq<Val>)

  /** What a promise does at once when when registers on it. A promise is not both resolved and rejected. */
  datatype AtOnce = AtOnce(done: Option<Firing>, fail: Option<seq<Val>>, progress: Option<Firing>)

  // ---- the reference: which positions are open, and what the master ought to be ----

  /** Position p needs no more waiting: a plain value already visited, or a promise whose done callback has run. */
  predicate Closed(args: seq<Arg>, visited: nat, delivered: map<nat, Firing>, p: nat)
    requires p < |args|
  {
    if args[p].Plain? then p < visited else p in delivered
  }

  /** The number of positions below n that are still open. */
  function OpenCount(args: seq<Arg>, visited: nat, delivered: map<nat, Firing>, n: nat): nat
    requires n <= |args|
  {
    if n == 0 then 0
    else OpenCount(args, visited, delivered, n - 1) + (if Closed(args, visited, delivered, n - 1) then 0 else 1)
  }

  /** The value that belongs in position p. */
  function Expected(args: seq<Arg>, delivered: map<nat, Firing>, p: nat): Entry
    requires p < |args|
  {
    if p in delivered then Stored(delivered[p].args) else Original(args[p])
  }

  lemma {:induction false} OpenCountZero(args: seq<Arg>, visited: nat, delivered: map<nat, Firing>, n: nat)
    requires n <= |args|
    ensures OpenCount(args, visited, delivered, n) == 0 <==>
              forall p :: 0 <= p < n ==> Closed(args, visited, delivered, p)
  {
    if n > 0 { OpenCountZero(args, visited, delivered, n - 1); }
  }

  lemma {:induction false} OpenCountStart(args: seq<Arg>, n: nat)
    requires n <= |args|
    ensures OpenCount(args, 0, map[], n) == n
  {
    if n > 0 { OpenCountStart(args, n - 1); }
  }

  /** Closing one open position brings the count down by one. */
  lemma {:induction false} OpenCountClose(args: seq<Arg>, visited: nat, delivered: map<nat, Firing>,
                                          visited': nat, delivered': map<nat, Firing>, p: nat, n: nat)
    requires n <= |args| && p < |args|
    requires !Closed(args, visited, delivered, p) && Closed(args, visited', delivered', p)
    requires forall q :: 0 <= q < |args| && q != p ==>
               (Closed(args, visited, delivered, q) <==> Closed(args, visited', delivered', q))
    ensures OpenCount(args, visited', delivered', n)
            == OpenCount(args, visited, delivered, n) - (if p < n then 1 else 0)
  {
    if n > 0 { OpenCountClose(args, visited, delivered, visited', delivered', p, n - 1); }
  }

  ghost predicate Among(failures: seq<(nat, seq<Val>)>, p: nat) {
    exists k :: 0 <= k < |failures| && failures[k].0 == p
  }

  lemma FailedAppend(failures: seq<(nat, seq<Val>)>, f: (nat, seq<Val>))
    ensures forall q: nat :: Among(failures + [f], q) <==> Among(failures, q) || q == f.0
  {
    assert (failures + [f])[|failures|] == f;
    forall q: nat | Among(failures, q) ensures Among(failures + [f], q) {
      var k :| 0 <= k < |failures| && failures[k].0 == q;
      assert (failures + [f])[k].0 == q;
    }
  }

  class When {
    const args: seq<Arg>
    var i: nat
    var remaining: int
    var resolveContexts: seq<Option<Val>>
    var resolveValues: seq<Entry>
    var progressContexts: seq<Option<Val>>
    var progressValues: seq<Option<Entry>>
    var master: Master
    /** The setup loop is over. */
    ghost var ready: bool
    /** The done callbacks that have run, and the rejections that have come, in their order. */
    ghost var delivered: map<nat, Firing>
    ghost var failures: seq<(nat, seq<Val>)>
    /** What the master's progress callbacks were sent. */
    ghost var notified: seq<(seq<Option<Val>>, seq<Option<Entry>>)>

    ghost predicate Failed(p: nat)
      reads this
    {
      Among(failures, p)
    }

    ghost predicate AllClosed()
      reads this
    {
      forall p :: 0 <= p < |args| ==> Closed(args, i, delivered, p)
    }

    ghost predicate Valid()
      reads this
    {
      Counted() && MasterOk()
    }

    /** The counter counts the open positions, and each value stands in its place. */
    ghost predicate Counted()
      reads this
    {
      && |args| != 1 && i <= |args| && (ready ==> i == |args|)
      && |resolveContexts| == |resolveValues| == |progressContexts| == |progressValues| == |args|
      && (forall p :: p in delivered ==> p < |args| && args[p].Promise? && p < i + 1 && !Failed(p))
      && (forall k :: 0 <= k < |failures| ==> failures[k].0 < |args| && args[failures[k].0].Promise?)
      && remaining == OpenCount(args, i, delivered, |args|)
      && (forall p :: 0 <= p < |args| ==> resolveValues[p] == Expected(args, delivered, p))
      && (forall p :: 0 <= p < |args| ==>
            resolveContexts[p] == if p in delivered then Some(delivered[p].context) else None)
    }

    /** The master is rejected by the first failure, resolved when every position is closed, and otherwise waiting. */
    ghost predicate MasterOk()
      reads this
    {
      if failures != [] then
        master == Rejected(failures[0].1)
      else if AllClosed() && (ready || master != Waiting) then
        master == Resolved(resolveContexts, resolveValues)
      else
        master == Waiting
    }

    /** A promise argument that when listens to and that has not called back yet. */
    ghost predicate Listening(p: nat)
      reads this
    {
      p < |args| && args[p].Promise? && p <= i && (ready || p < i || i < |args|) && p !in delivered && !Failed(p)
    }

    /** The counter is zero exactly when nothing is open; after setup the master is resolved exactly then, with the
        values in argument order, and rejected exactly when some promise was, by the first one. */
    lemma Meaning()
      requires Valid()
      ensures remaining >= 0 && (remaining == 0 <==> AllClosed())
      ensures ready ==> (master.Resolved? <==> AllClosed()) && (master.Rejected? <==> failures != [])
      ensures master.Rejected? ==> master.args == failures[0].1
      ensures master.Resolved? ==> AllClosed() && |master.values| == |args|
                                   && forall p :: 0 <= p < |args| ==> master.values[p] == Expected(args, delivered, p)
      ensures master.Resolved? ==> |master.contexts| == |args| && forall p :: 0 <= p < |args| ==>
                master.contexts[p] == if p in delivered then Some(delivered[p].context) else None
      ensures forall p :: p in delivered ==> p < |args| && Keeps(Expected(args, delivered, p), delivered[p].args)
    {
      OpenCountZero(args, i, delivered, |args|);
      if failures != [] {
        var p := failures[0].0;
        assert Failed(p) && !Closed(args, i, delivered, p);
      }
    }

    constructor (args: seq<Arg>)
      requires |args| != 1
      ensures Valid() && this.args == args && i == 0 && !ready && master == Waiting
      ensures delivered == map[] && failures == [] && notified == []
    {
      this.args := args;
      i, remaining := 0, |args|;
      resolveContexts, progressContexts := seq(|args|, _ => None), seq(|args|, _ => None);
      resolveValues := seq(|args|, p requires 0 <= p < |args| => Original(args[p]));
      progressValues := seq(|args|, _ => None);
      master := Waiting;
      ready, delivered, failures, notified := false, map[], [], [];
      new;
      OpenCountStart(args, |args|);
      OpenCountZero(args, 0, map[], |args|);
    }

    /** The update function of position p on the done list. */
    method Done(p: nat, f: Firing)
      requires Valid() && Listening(p)
      modifies this
      ensures Valid() && i == old(i) && ready == old(ready)
      ensures delivered == old(delivered)[p := f] && failures == old(failures) && notified == old(notified)
      ensures resolveContexts[p] == Some(f.context) && Keeps(resolveValues[p], f.args)
      ensures AllClosed() && failures == [] ==> master.Resolved?
    {
      assert !Closed(args, i, delivered, p);
      Deliver(p, f);
      OpenCountZero(args, i, delivered, |args|);
      if remaining == 0 {
        Resolve();
      }
    }

    /** What the update function makes of its arguments, of which value is the first. */
    method Arguments(args: seq<Val>) returns (entry: Entry)
      ensures entry == Stored(args) && Keeps(entry, args)
    {
      var value := if args == [] then None else Some(args[0]);
      entry := if |args| > 1 then Many(args) else One(value);
    }

    /** Note the outcome of position p, and count it off. */
    method Deliver(p: nat, f: Firing)
      requires Counted() && Listening(p)
      modifies `resolveContexts, `resolveValues, `delivered, `remaining
      ensures Counted() && delivered == old(delivered)[p := f]
    {
      Update(p, f);
      remaining := remaining - 1;
    }

    /** Note with what, and on what, position p was resolved. */
    method Update(p: nat, f: Firing)
      requires Counted() && Listening(p)
      modifies `resolveContexts, `resolveValues, `delivered
      ensures delivered == old(delivered)[p := f]
      ensures |resolveContexts| == |resolveValues| == |args|
      ensures forall q :: 0 <= q < |args| ==> resolveValues[q] == Expected(args, delivered, q)
      ensures forall q :: 0 <= q < |args| ==>
                resolveContexts[q] == if q in delivered then Some(delivered[q].context) else None
      ensures remaining - 1 == OpenCount(args, i, delivered, |args|)
    {
      resolveContexts := resolveContexts[p := Some(f.context)];
      var entry := Arguments(f.args);
      resolveValues := resolveValues[p := entry];
      ghost var was := delivered;
      delivered := delivered[p := f];
      OpenCountClose(args, i, was, i, delivered, p, |args|);
    }

    /** Resolve the master with all contexts and values; only the first settling counts. */
    method Resolve()
      modifies `master
      ensures master == if old(master) == Waiting then Resolved(resolveContexts, resolveValues) else old(master)
    {
      if master == Waiting {
        master := Resolved(resolveContexts, resolveValues);
      }
    }

    /** deferred.reject on the fail list of position p. */
    method Fail(p: nat, reason: seq<Val>)
      requires Valid() && Listening(p)
      modifies `master, `failures
      ensures Valid()
      ensures failures == old(failures) + [(p, reason)]
      ensures forall q: nat :: Failed(q) <==> old(Failed(q)) || q == p
    {
      assert !Closed(args, i, delivered, p);
      failures := failures + [(p, reason)];
      FailedAppend(old(failures), (p, reason));
      if master == Waiting {
        master := Rejected(reason);
      }
    }

    /** The update function of position p on the progress list. */
    method Progress(p: nat, f: Firing)
      requires Valid() && p < |args|
      modifies `progressContexts, `progressValues, `notified
      ensures Valid()
      ensures progressContexts == old(progressContexts)[p := Some(f.context)]
      ensures progressValues == old(progressValues)[p := Some(Stored(f.args))]
      ensures Keeps(Stored(f.args), f.args)
      ensures notified == old(notified) + if master == Waiting then [(progressContexts, progressValues)] else []
    {
      progressContexts := progressContexts[p := Some(f.context)];
      var entry := Arguments(f.args);
      progressValues := progressValues[p := Some(entry)];
      if master == Waiting {
        notified := notified + [(progressContexts, progressValues)];
      }
    }

    /** The setup loop and the final check. atOnce[p] is what argument p does while it is registered on. */
    method Setup(atOnce: seq<AtOnce>)
      requires Valid() && i == 0 && !ready && delivered == map[] && failures == [] && master == Waiting
      requires |atOnce| == |args| && forall p :: 0 <= p < |atOnce| ==> atOnce[p].done.None? || atOnce[p].fail.None?
      modifies this
      ensures Valid() && ready
      ensures forall p :: p in delivered <==> 0 <= p < |args| && args[p].Promise? && atOnce[p].done.Some?
      ensures forall p :: p in delivered ==> delivered[p] == atOnce[p].done.value
      ensures forall p: nat :: Failed(p) <==> p < |args| && args[p].Promise? && atOnce[p].fail.Some?
    {
      while i < |args|
        invariant Valid() && !ready
        invariant forall p :: p in delivered <==> 0 <= p < i && args[p].Promise? && atOnce[p].done.Some?
        invariant forall p :: p in delivered ==> delivered[p] == atOnce[p].done.value
        invariant forall p: nat :: Failed(p) <==> p < i && args[p].Promise? && atOnce[p].fail.Some?
      {
        SetupOne(atOnce[i]);
      }
      OpenCountZero(args, i, delivered, |args|);
      ready := true;
      if remaining == 0 {
        Resolve();
      }
    }

    /** One turn of the setup loop. */
    method SetupOne(now: AtOnce)
      requires Valid() && !ready && i < |args| && i !in delivered && !Failed(i)
      requires now.done.None? || now.fail.None?
      modifies this
      ensures Valid() && !ready && i == old(i) + 1
      ensures delivered == if args[old(i)].Promise? && now.done.Some? then old(delivered)[old(i) := now.done.value]
                           else old(delivered)
      ensures forall q: nat :: Failed(q) <==> old(Failed(q)) || (q == old(i) && args[q].Promise? && now.fail.Some?)
    {
      if args[i].Promise? {
        if now.done.Some? { Done(i, now.done.value); }
        if now.fail.Some? { Fail(i, now.fail.value); }
        if now.progress.Some? { Progress(i, now.progress.value); }
        NextAfterPromise();
      } else {
        NextAfterPlain();
      }
    }

    /** The loop moves on from a promise. */
    method NextAfterPromise()
      requires Valid() && !ready && i < |args| && args[i].Promise?
      modifies `i
      ensures Valid() && i == old(i) + 1
    {
      OpenCountSame(args, i, i + 1, delivered, |args|);
      i := i + 1;
    }

    /** A plain value counts as resolved, and the loop moves on. */
    method NextAfterPlain()
      requires Valid() && !ready && i < |args| && args[i].Plain?
      modifies `i, `remaining
      ensures Valid() && i == old(i) + 1
    {
      assert !Closed(args, i, delivered, i);
      OpenCountClose(args, i, delivered, i + 1, delivered, i, |args|);
      remaining := remaining - 1;
      i := i + 1;
    }
  }

  /** Moving past a promise changes nothing. */
  lemma {:induction false} OpenCountSame(args: seq<Arg>, visited: nat, visited': nat, delivered: map<nat, Firing>,
                                         n: nat)
    requires n <= |args| && visited' == visited + 1 <= |args| && args[visited].Promise?
    ensures OpenCount(args, visited', delivered, n) == OpenCount(args, visited, delivered, n)
    ensures forall p :: 0 <= p < |args| ==>
              (Closed(args, visited', delivered, p) <==> Closed(args, visited, delivered, p))
  {
    if n > 0 { OpenCountSame(args, visited, visited', delivered, n - 1); }
  }
}
