/** jQuery.Deferred: three callback lists wired so that it settles once. User callbacks may, while they run,
    register on, resolve, reject or notify the same Deferred; passes nest as the calls do. */
module Deferred {
  import opened CallbackQueue
  import opened Wrappers
  import C = Callbacks

  datatype State = Pending | Resolved | Rejected

  /** The lists, by their index in tuples. */
  const DONE := 0
  const FAIL := 1
  const PROGRESS := 2

  /** The callbacks the constructor installs; every other number is a user's function. */
  const SET_STATE := 0
  const DISABLE_OTHER := 1
  const LOCK_PROGRESS := 2

  const ONCE := Options(true, true, false, false)
  const REPEAT := Options(false, true, false, false)

  predicate UserFns(fns: seq<Fn>) {
    forall i :: 0 <= i < |fns| ==> fns[i] > LOCK_PROGRESS
  }

  /** A pass under way on list l; inUser while it executes a user's callback. */
  datatype Frame = Frame(l: nat, inUser: bool)

  datatype Deferred = Deferred(lists: seq<Queue>, state: State, frames: seq<Frame>)

  datatype Action = Register(l: nat, fns: seq<Fn>) | Fire(l: nat, data: Data) | Advance

  function Create(): Deferred {
    var own := [SET_STATE, DISABLE_OTHER, LOCK_PROGRESS];
    Deferred([Add(Init(ONCE), own), Add(Init(ONCE), own), Init(REPEAT)], Pending, [])
  }

  function FinalState(l: nat): State {
    if l == DONE then Resolved else Rejected
  }

  /** User code has control: outside all passes, or inside a user's callback. */
  predicate Quiet(d: Deferred) {
    d.frames == [] || d.frames[|d.frames| - 1].inUser
  }

  /** List l becomes q; if that began a pass, it is now the innermost one. */
  function Update(d: Deferred, l: nat, q: Queue): Deferred
    requires l < |d.lists|
  {
    d.(lists := d.lists[l := q],
       frames := if q.firing && !d.lists[l].firing then d.frames + [Frame(l, false)] else d.frames)
  }

  /** The effect of a callback of list l that the constructor installed. */
  function Effect(d: Deferred, l: nat, fn: Fn): Deferred
    requires |d.lists| == 3
  {
    if l > FAIL then d
    else if fn == SET_STATE then d.(state := FinalState(l))
    else if fn == DISABLE_OTHER then d.(lists := d.lists[1 - l := Disable(d.lists[1 - l])])
    else d.(lists := d.lists[PROGRESS := Lock(d.lists[PROGRESS])])
  }

  /** One turn of the innermost pass: call its next callback, or end it. */
  function AdvanceTop(d: Deferred): Deferred
    requires |d.lists| == 3 && d.frames != [] && d.frames[|d.frames| - 1].l <= PROGRESS
  {
    var n := |d.frames| - 1;
    var l := d.frames[n].l;
    var q := d.lists[l];
    if q.alive && q.ahead != [] then
      var fn := q.ahead[0].fn;
      var d' := d.(lists := d.lists[l := CallHead(q)], frames := d.frames[n := Frame(l, fn > LOCK_PROGRESS)]);
      if fn > LOCK_PROGRESS then d' else Effect(d', l, fn)
    else
      d.(lists := d.lists[l := End(q)],
         frames := if End(q).firing then d.frames[n := Frame(l, false)] else d.frames[..n])
  }

  /** What an action does; actions that cannot happen now do nothing. */
  function Take(d: Deferred, a: Action): Deferred
    requires |d.lists| == 3 && forall i :: 0 <= i < |d.frames| ==> d.frames[i].l <= PROGRESS
  {
    match a
    case Register(l, fns) =>
      if Quiet(d) && l <= PROGRESS && UserFns(fns) then Update(d, l, Add(d.lists[l], fns)) else d
    case Fire(l, data) =>
      if Quiet(d) && l <= PROGRESS then Update(d, l, FireWith(d.lists[l], data)) else d
    case Advance =>
      if d.frames != [] then AdvanceTop(d) else d
  }

  // ---- a list that fires once and remembers ----

  /** The registrations it has yet to call. */
  function Waiting(q: Queue): seq<Reg> {
    if q.fired then q.ahead else q.past
  }

  /** Registration i is the i-th call, all calls carry the arguments of the one fire, and the rest waits in order. */
  ghost predicate OnceOk(q: Queue) {
    var calls := q.log.calls;
    && q.opts == ONCE && q.alive && q.stack.None?
    && |calls| + |Waiting(q)| == q.nextId
    && (forall i :: 0 <= i < |calls| ==> calls[i].reg.id == i)
    && Numbered(Waiting(q), |calls|)
    && (if q.fired then
          && |q.log.accepted| == 1
          && q.memory == Some(q.log.accepted[0]) && q.data == q.log.accepted[0]
          && (forall i :: 0 <= i < |calls| ==> calls[i].data == q.log.accepted[0])
          && (!q.firing ==> q.past == [] && q.ahead == [])
        else
          !q.firing && q.memory.None? && q.ahead == [] && calls == [] && q.log.accepted == [])
  }

  ghost predicate UserOnly(rs: seq<Reg>) {
    forall i :: 0 <= i < |rs| ==> rs[i].fn > LOCK_PROGRESS
  }

  lemma {:induction false} FreshPlain(rs: seq<Reg>, fns: seq<Fn>, nextId: nat)
    ensures |Fresh(rs, fns, false, nextId)| == |fns|
    ensures forall i :: 0 <= i < |fns| ==> Fresh(rs, fns, false, nextId)[i] == Reg(nextId + i, fns[i])
    decreases |fns|
  {
    if fns != [] {
      var r := Reg(nextId, fns[0]);
      FreshPlain(rs + [r], fns[1..], nextId + 1);
      assert Fresh(rs, fns, false, nextId) == [r] + Fresh(rs + [r], fns[1..], false, nextId + 1);
    }
  }

  lemma OnceAdd(q: Queue, fns: seq<Fn>)
    requires OnceOk(q) && UserFns(fns)
    ensures OnceOk(Add(q, fns))
    ensures Add(q, fns).fired == q.fired && Add(q, fns).log.calls == q.log.calls
    ensures Add(q, fns).log.accepted == q.log.accepted
    ensures exists news :: UserOnly(news) && Waiting(Add(q, fns)) == Waiting(q) + news
  {
    var list := q.past + q.ahead;
    var news := Fresh(list, fns, false, q.nextId);
    FreshIds(list, fns, false, q.nextId);
    FreshPlain(list, fns, q.nextId);
    if !q.firing && q.memory.Some? {
      assert list == [] && (list + news)[|list|..] == news;
    }
    assert Waiting(Add(q, fns)) == Waiting(q) + news;
  }

  lemma OnceFire(q: Queue, data: Data)
    requires OnceOk(q)
    ensures OnceOk(FireWith(q, data)) && FireWith(q, data).fired
    ensures q.fired ==> FireWith(q, data) == q
    ensures !q.fired ==> FireWith(q, data).firing && FireWith(q, data).ahead == q.past && FireWith(q, data).past == []
    ensures !q.fired ==> FireWith(q, data).log.calls == [] && FireWith(q, data).log.accepted == [data]
  {
    if !q.fired {
      assert q.past + q.ahead == q.past;
      assert q.past[0..] == q.past && q.past[..0] == [];
    }
  }

  lemma OnceCall(q: Queue)
    requires OnceOk(q) && q.firing && q.ahead != []
    ensures OnceOk(CallHead(q))
  {
  }

  lemma OnceEnd(q: Queue)
    requires OnceOk(q) && q.firing && q.ahead == []
    ensures OnceOk(End(q)) && !End(q).firing
  {
  }

  // ---- the phases of a Deferred ----

  datatype Phase = Open | Halfway(l: nat, k: nat) | Closed(l: nat)

  ghost predicate Unfired(q: Queue) {
    OnceOk(q) && !q.fired && Own(q.past, 0)
  }

  /** What is left of the constructor's callbacks from the k-th on, then users' only. */
  ghost predicate Own(rs: seq<Reg>, k: nat) {
    && k <= 3 <= k + |rs|
    && (forall i :: 0 <= i < 3 - k ==> rs[i].fn == k + i)
    && (forall i :: 3 - k <= i < |rs| ==> rs[i].fn > LOCK_PROGRESS)
  }

  ghost predicate Dead(q: Queue) {
    !q.alive && !q.firing && q.log.calls == [] && q.past == q.ahead == []
  }

  ghost predicate ProgressOk(q: Queue) {
    q.opts == REPEAT && Fifo(q) && (!q.firing ==> q.ahead == [])
  }

  /** No fire will be taken on any more. */
  ghost predicate Locked(q: Queue) {
    q.stack.None? && (q.fired || !q.alive)
  }

  /** It takes every fire on. */
  predicate Repeating(q: Queue) {
    q.alive && q.stack.Some?
  }

  predicate InFrames(frames: seq<Frame>, l: nat) {
    exists i :: 0 <= i < |frames| && frames[i].l == l
  }

  /** The firing lists are those with a frame, one each; all but the innermost are inside a user's callback. */
  ghost predicate FramesOk(d: Deferred) {
    && |d.lists| == 3
    && (forall i :: 0 <= i < |d.frames| ==> d.frames[i].l <= PROGRESS)
    && (forall i :: 0 <= i < |d.frames| - 1 ==> d.frames[i].inUser)
    && (forall i, j :: 0 <= i < j < |d.frames| ==> d.frames[i].l != d.frames[j].l)
    && (forall l :: 0 <= l < 3 ==> (d.lists[l].firing <==> InFrames(d.frames, l)))
  }

  ghost predicate InPhase(d: Deferred, ph: Phase) {
    && FramesOk(d) && ProgressOk(d.lists[PROGRESS])
    && match ph
       case Open =>
         d.state == Pending && Unfired(d.lists[DONE]) && Unfired(d.lists[FAIL]) && Repeating(d.lists[PROGRESS])
       case Halfway(l, k) =>
         && l <= FAIL && k <= 2 && Repeating(d.lists[PROGRESS])
         && d.frames != [] && d.frames[|d.frames| - 1] == Frame(l, false)
         && OnceOk(d.lists[l]) && d.lists[l].firing && |d.lists[l].log.calls| == k && Own(d.lists[l].ahead, k)
         && d.state == (if k >= 1 then FinalState(l) else Pending)
         && (if k >= 2 then Dead(d.lists[1 - l]) else Unfired(d.lists[1 - l]))
       case Closed(l) =>
         && l <= FAIL && d.state == FinalState(l)
         && OnceOk(d.lists[l]) && d.lists[l].fired && UserOnly(d.lists[l].ahead)
         && Dead(d.lists[1 - l]) && Locked(d.lists[PROGRESS])
  }

  lemma OwnAdded(q: Queue)
    requires q == Init(ONCE)
    ensures Unfired(Add(q, [SET_STATE, DISABLE_OTHER, LOCK_PROGRESS]))
  {
    var own := [SET_STATE, DISABLE_OTHER, LOCK_PROGRESS];
    FreshPlain(q.past + q.ahead, own, 0);
    var news := Fresh(q.past + q.ahead, own, false, 0);
    assert Add(q, own).past == [] + news == news;
  }

  lemma CreateOpen()
    ensures InPhase(Create(), Open)
  {
    OwnAdded(Init(ONCE));
    var d := Create();
    assert forall l :: 0 <= l < 3 ==> !d.lists[l].firing;
    IdleFrames(d.lists, d.state);
    assert Fifo(Init(REPEAT));
  }

  lemma IdleFrames(lists: seq<Queue>, state: State)
    requires |lists| == 3 && forall l :: 0 <= l < 3 ==> !lists[l].firing
    ensures FramesOk(Deferred(lists, state, []))
  {
  }

  // ---- each kind of step ----

  /** Pushing the frame of a pass that has just begun keeps the frames in order. */
  lemma UpdateFrames(d: Deferred, l: nat, q: Queue)
    requires FramesOk(d) && Quiet(d) && l <= PROGRESS && (d.lists[l].firing ==> q.firing)
    ensures FramesOk(Update(d, l, q))
  {
    var d' := Update(d, l, q);
    forall m | 0 <= m < 3 ensures d'.lists[m].firing <==> InFrames(d'.frames, m) {
      if InFrames(d.frames, m) {
        var i :| 0 <= i < |d.frames| && d.frames[i].l == m;
        assert d'.frames[i].l == m;
      }
      if m == l && q.firing && !d.lists[l].firing {
        assert d'.frames[|d.frames|].l == m;
      }
    }
  }

  /** The innermost pass goes on or ends. */
  lemma TopFrames(d: Deferred, q: Queue, inUser: bool)
    requires FramesOk(d) && d.frames != []
    ensures var n := |d.frames| - 1;
            var l := d.frames[n].l;
            FramesOk(d.(lists := d.lists[l := q],
                        frames := if q.firing then d.frames[n := Frame(l, inUser)] else d.frames[..n]))
  {
    var n := |d.frames| - 1;
    var l := d.frames[n].l;
    var frames := if q.firing then d.frames[n := Frame(l, inUser)] else d.frames[..n];
    forall m | 0 <= m < 3 ensures d.lists[l := q][m].firing <==> InFrames(frames, m) {
      if m != l && InFrames(d.frames, m) {
        var i :| 0 <= i < |d.frames| && d.frames[i].l == m;
        assert frames[i].l == m;
      }
      if m == l && q.firing { assert frames[n].l == m; }
    }
  }

  /** A pass turn on the progress list, and what a lock means for it. */
  lemma ProgressTurn(q: Queue)
    requires ProgressOk(q)
    ensures ProgressOk(Turn(q)) && (Locked(q) ==> Locked(Turn(q))) && (Repeating(q) ==> Repeating(Turn(q)))
    ensures ProgressOk(Lock(q)) && Locked(Lock(q)) && (Lock(q).firing == q.firing)
  {
    StepFifo(q, Turning);
    StepFifo(q, CallbackQueue.Action.Do(OpLock));
  }

  lemma ProgressUpdate(q: Queue, op: Op)
    requires ProgressOk(q) && (op.OpAdd? || op.OpFire?)
    ensures var q' := Perform(q, op);
            ProgressOk(q') && (q.firing ==> q'.firing) && (Repeating(q) ==> Repeating(q'))
            && (Locked(q) ==> Locked(q') && q'.log.accepted == q.log.accepted && q'.log.started == q.log.started)
  {
    StepFifo(q, CallbackQueue.Action.Do(op));
  }

  /** What one step may do to the phase. */
  predicate Follows(ph: Phase, ph': Phase) {
    match ph
    case Open => ph' == Open || (ph'.Halfway? && ph'.k == 0)
    case Halfway(l, k) => ph' == ph || ph' == (if k == 2 then Closed(l) else Halfway(l, k + 1))
    case Closed(l) => ph' == ph
  }

  /** A turn of the progress list's pass, in any phase but Halfway. */
  lemma AdvanceProgress(d: Deferred, ph: Phase)
    requires InPhase(d, ph) && !ph.Halfway? && d.frames != [] && d.frames[|d.frames| - 1].l == PROGRESS
    ensures InPhase(AdvanceTop(d), ph)
  {
    var q := d.lists[PROGRESS];
    assert q.firing by { assert InFrames(d.frames, PROGRESS); }
    ProgressTurn(q);
    TopFrames(d, Turn(q), q.alive && q.ahead != [] && q.ahead[0].fn > LOCK_PROGRESS);
  }

  lemma RegisterOpen(d: Deferred, l: nat, fns: seq<Fn>)
    requires InPhase(d, Open) && Quiet(d) && l <= PROGRESS && UserFns(fns)
    ensures InPhase(Update(d, l, Add(d.lists[l], fns)), Open)
  {
    UpdateFrames(d, l, Add(d.lists[l], fns));
    if l == PROGRESS {
      ProgressUpdate(d.lists[l], OpAdd(fns));
    } else {
      OnceAdd(d.lists[l], fns);
      OwnAndMore(d.lists[l], fns);
    }
    StillOpen(d, Update(d, l, Add(d.lists[l], fns)), l, Add(d.lists[l], fns));
  }

  lemma OwnAndMore(q: Queue, fns: seq<Fn>)
    requires Unfired(q) && UserFns(fns)
    ensures Unfired(Add(q, fns))
  {
    OnceAdd(q, fns);
    var news :| UserOnly(news) && Waiting(Add(q, fns)) == Waiting(q) + news;
    assert Add(q, fns).past == q.past + news;
  }

  lemma StillOpen(d: Deferred, d': Deferred, l: nat, q: Queue)
    requires InPhase(d, Open) && FramesOk(d') && l <= PROGRESS && d'.state == d.state && d'.lists == d.lists[l := q]
    requires if l == PROGRESS then ProgressOk(q) && Repeating(q) else Unfired(q)
    ensures InPhase(d', Open)
  {
  }

  lemma FireOpen(d: Deferred, l: nat, data: Data)
    requires InPhase(d, Open) && Quiet(d) && l <= PROGRESS
    ensures InPhase(Update(d, l, FireWith(d.lists[l], data)), if l == PROGRESS then Open else Halfway(l, 0))
  {
    if l == PROGRESS { NotifyOpen(d, data); } else { FireSettles(d, l, data); }
  }

  lemma NotifyOpen(d: Deferred, data: Data)
    requires InPhase(d, Open) && Quiet(d)
    ensures InPhase(Update(d, PROGRESS, FireWith(d.lists[PROGRESS], data)), Open)
  {
    ProgressUpdate(d.lists[PROGRESS], OpFire(data));
    UpdateFrames(d, PROGRESS, FireWith(d.lists[PROGRESS], data));
  }

  lemma FireSettles(d: Deferred, l: nat, data: Data)
    requires InPhase(d, Open) && Quiet(d) && l <= FAIL
    ensures InPhase(Update(d, l, FireWith(d.lists[l], data)), Halfway(l, 0))
    ensures FireWith(d.lists[l], data).log.accepted == [data]
  {
    var q := FireWith(d.lists[l], data);
    OnceFire(d.lists[l], data);
    UpdateFrames(d, l, q);
    NowHalfway(d, Update(d, l, q), l, q);
  }

  lemma NowHalfway(d: Deferred, d': Deferred, l: nat, q: Queue)
    requires InPhase(d, Open) && FramesOk(d') && l <= FAIL && d'.state == d.state && d'.lists == d.lists[l := q]
    requires d'.frames != [] && d'.frames[|d'.frames| - 1] == Frame(l, false)
    requires OnceOk(q) && q.firing && q.log.calls == [] && Own(q.ahead, 0)
    ensures InPhase(d', Halfway(l, 0))
  {
  }

  lemma StepOpen(d: Deferred, a: Action) returns (ph: Phase)
    requires InPhase(d, Open)
    ensures InPhase(Take(d, a), ph) && Follows(Open, ph)
  {
    ph := Open;
    match a
    case Register(l, fns) =>
      if Quiet(d) && l <= PROGRESS && UserFns(fns) { RegisterOpen(d, l, fns); }
    case Fire(l, data) =>
      if Quiet(d) && l <= PROGRESS {
        FireOpen(d, l, data);
        if l <= FAIL { ph := Halfway(l, 0); }
      }
    case Advance =>
      if d.frames != [] { AdvanceOpen(d); }
  }

  lemma AdvanceOpen(d: Deferred)
    requires InPhase(d, Open) && d.frames != []
    ensures InPhase(AdvanceTop(d), Open)
  {
    assert InFrames(d.frames, d.frames[|d.frames| - 1].l);
    AdvanceProgress(d, Open);
  }

  lemma StepHalfway(d: Deferred, l: nat, k: nat, a: Action) returns (ph: Phase)
    requires InPhase(d, Halfway(l, k))
    ensures InPhase(Take(d, a), ph) && Follows(Halfway(l, k), ph)
    ensures Take(d, a).lists[l].log.accepted == d.lists[l].log.accepted
  {
    ph := Halfway(l, k);
    if a == Advance {
      ph := AdvanceHalfway(d, l, k);
    } else {
      NotNow(d, a);
    }
  }

  /** User code has no say while a pass is busy with the constructor's callbacks. */
  lemma NotNow(d: Deferred, a: Action)
    requires FramesOk(d) && !Quiet(d) && a != Advance
    ensures Take(d, a) == d
  {
  }

  /** The next of the constructor's callbacks is called. */
  lemma AdvanceHalfway(d: Deferred, l: nat, k: nat) returns (ph: Phase)
    requires InPhase(d, Halfway(l, k))
    ensures InPhase(AdvanceTop(d), ph) && Follows(Halfway(l, k), ph)
    ensures AdvanceTop(d).lists[l].log.accepted == d.lists[l].log.accepted
  {
    if k == 0 {
      AdvanceSetState(d, l);
      ph := Halfway(l, 1);
    } else if k == 1 {
      AdvanceDisable(d, l);
      ph := Halfway(l, 2);
    } else {
      AdvanceLock(d, l);
      ph := Closed(l);
    }
  }

  /** The pass of list l after it has called its next callback, before that callback's effect. */
  function Called(d: Deferred, l: nat): Deferred
    requires l < |d.lists| && d.frames != [] && d.lists[l].ahead != []
  {
    d.(lists := d.lists[l := CallHead(d.lists[l])], frames := d.frames[|d.frames| - 1 := Frame(l, false)])
  }

  lemma AdvanceSetState(d: Deferred, l: nat)
    requires InPhase(d, Halfway(l, 0))
    ensures InPhase(AdvanceTop(d), Halfway(l, 1)) && AdvanceTop(d).lists[l].log.accepted == d.lists[l].log.accepted
  {
    HalfwayCall(d.lists[l], 0);
    AdvanceFrames(d);
    assert AdvanceTop(d) == Effect(Called(d, l), l, SET_STATE);
  }

  lemma AdvanceDisable(d: Deferred, l: nat)
    requires InPhase(d, Halfway(l, 1))
    ensures InPhase(AdvanceTop(d), Halfway(l, 2)) && AdvanceTop(d).lists[l].log.accepted == d.lists[l].log.accepted
  {
    HalfwayCall(d.lists[l], 1);
    AdvanceFrames(d);
    assert AdvanceTop(d) == Effect(Called(d, l), l, DISABLE_OTHER);
  }

  lemma AdvanceLock(d: Deferred, l: nat)
    requires InPhase(d, Halfway(l, 2))
    ensures InPhase(AdvanceTop(d), Closed(l)) && AdvanceTop(d).lists[l].log.accepted == d.lists[l].log.accepted
  {
    HalfwayCall(d.lists[l], 2);
    ProgressTurn(d.lists[PROGRESS]);
    AdvanceFrames(d);
    assert AdvanceTop(d) == Effect(Called(d, l), l, LOCK_PROGRESS);
  }

  lemma HalfwayCall(q: Queue, k: nat)
    requires OnceOk(q) && q.firing && k <= 2 && |q.log.calls| == k && Own(q.ahead, k)
    ensures q.ahead != [] && q.ahead[0].fn == k
    ensures OnceOk(CallHead(q)) && |CallHead(q).log.calls| == k + 1 && CallHead(q).log.accepted == q.log.accepted
    ensures if k == 2 then UserOnly(CallHead(q).ahead) else Own(CallHead(q).ahead, k + 1)
  {
    OnceCall(q);
  }

  lemma RegisterClosed(d: Deferred, l: nat, m: nat, fns: seq<Fn>)
    requires InPhase(d, Closed(l)) && Quiet(d) && m <= PROGRESS && UserFns(fns)
    ensures InPhase(Update(d, m, Add(d.lists[m], fns)), Closed(l))
    ensures Update(d, m, Add(d.lists[m], fns)).lists[l].log.accepted == d.lists[l].log.accepted
  {
    if m == PROGRESS { RegisterProgress(d, l, fns); }
    else if m == l { RegisterSettled(d, l, fns); }
    else { RegisterDead(d, l, m, fns); }
  }

  lemma RegisterProgress(d: Deferred, l: nat, fns: seq<Fn>)
    requires InPhase(d, Closed(l)) && Quiet(d) && UserFns(fns)
    ensures InPhase(Update(d, PROGRESS, Add(d.lists[PROGRESS], fns)), Closed(l))
  {
    ProgressUpdate(d.lists[PROGRESS], OpAdd(fns));
    UpdateFrames(d, PROGRESS, Add(d.lists[PROGRESS], fns));
  }

  lemma RegisterSettled(d: Deferred, l: nat, fns: seq<Fn>)
    requires InPhase(d, Closed(l)) && Quiet(d) && UserFns(fns)
    ensures InPhase(Update(d, l, Add(d.lists[l], fns)), Closed(l))
    ensures Add(d.lists[l], fns).log.accepted == d.lists[l].log.accepted
  {
    UsersJoin(d.lists[l], fns);
    UpdateFrames(d, l, Add(d.lists[l], fns));
    StillClosed(d, Update(d, l, Add(d.lists[l], fns)), l, Add(d.lists[l], fns));
  }

  lemma UsersJoin(q: Queue, fns: seq<Fn>)
    requires OnceOk(q) && q.fired && UserOnly(q.ahead) && UserFns(fns)
    ensures var q' := Add(q, fns);
            OnceOk(q') && q'.fired && UserOnly(q'.ahead) && q'.log.accepted == q.log.accepted
            && (q.firing ==> q'.firing)
  {
    OnceAdd(q, fns);
    var news :| UserOnly(news) && Waiting(Add(q, fns)) == Waiting(q) + news;
    assert Add(q, fns).ahead == q.ahead + news;
  }

  lemma RegisterDead(d: Deferred, l: nat, m: nat, fns: seq<Fn>)
    requires InPhase(d, Closed(l)) && m == 1 - l
    ensures Update(d, m, Add(d.lists[m], fns)) == d
  {
    assert Add(d.lists[m], fns) == d.lists[m];
    assert d.lists[m := d.lists[m]] == d.lists;
  }

  /** Once settled, resolve, reject and notify do nothing at all. */
  lemma FireClosed(d: Deferred, l: nat, m: nat, data: Data)
    requires InPhase(d, Closed(l)) && m <= PROGRESS
    ensures Update(d, m, FireWith(d.lists[m], data)) == d
  {
    if m == l { OnceFire(d.lists[m], data); }
    assert FireWith(d.lists[m], data) == d.lists[m];
    assert d.lists[m := d.lists[m]] == d.lists;
  }

  lemma StepClosed(d: Deferred, l: nat, a: Action)
    requires InPhase(d, Closed(l))
    ensures InPhase(Take(d, a), Closed(l))
    ensures a.Fire? ==> Take(d, a) == d
    ensures Take(d, a).lists[l].log.accepted == d.lists[l].log.accepted
  {
    match a
    case Register(m, fns) =>
      if Quiet(d) && m <= PROGRESS && UserFns(fns) { RegisterClosed(d, l, m, fns); }
    case Fire(m, data) =>
      if m <= PROGRESS { FireClosed(d, l, m, data); }
    case Advance =>
      if d.frames != [] { AdvanceSettled(d, l); }
  }

  lemma AdvanceSettled(d: Deferred, l: nat)
    requires InPhase(d, Closed(l)) && d.frames != []
    ensures InPhase(AdvanceTop(d), Closed(l))
    ensures AdvanceTop(d).lists[l].log.accepted == d.lists[l].log.accepted
  {
    assert InFrames(d.frames, d.frames[|d.frames| - 1].l);
    if d.frames[|d.frames| - 1].l == PROGRESS {
      AdvanceProgress(d, Closed(l));
    } else {
      AdvanceClosed(d, l);
    }
  }

  lemma AdvanceClosed(d: Deferred, l: nat)
    requires InPhase(d, Closed(l)) && d.frames != [] && d.frames[|d.frames| - 1].l == l && d.lists[l].firing
    ensures InPhase(AdvanceTop(d), Closed(l))
    ensures AdvanceTop(d).lists[l].log.accepted == d.lists[l].log.accepted
  {
    AdvanceFrames(d);
    if d.lists[l].ahead != [] { CallClosed(d, l); } else { EndClosed(d, l); }
  }

  lemma CallClosed(d: Deferred, l: nat)
    requires InPhase(d, Closed(l)) && d.frames != [] && d.frames[|d.frames| - 1].l == l && d.lists[l].firing
    requires d.lists[l].ahead != [] && FramesOk(AdvanceTop(d))
    ensures InPhase(AdvanceTop(d), Closed(l))
    ensures AdvanceTop(d).lists[l].log.accepted == d.lists[l].log.accepted
  {
    var q := d.lists[l];
    OnceCall(q);
    assert q.ahead[0].fn > LOCK_PROGRESS;
    StillClosed(d, AdvanceTop(d), l, CallHead(q));
  }

  lemma EndClosed(d: Deferred, l: nat)
    requires InPhase(d, Closed(l)) && d.frames != [] && d.frames[|d.frames| - 1].l == l && d.lists[l].firing
    requires d.lists[l].ahead == [] && FramesOk(AdvanceTop(d))
    ensures InPhase(AdvanceTop(d), Closed(l))
    ensures AdvanceTop(d).lists[l].log.accepted == d.lists[l].log.accepted
  {
    OnceEnd(d.lists[l]);
    StillClosed(d, AdvanceTop(d), l, End(d.lists[l]));
  }

  lemma StillClosed(d: Deferred, d': Deferred, l: nat, q: Queue)
    requires InPhase(d, Closed(l)) && FramesOk(d') && d'.state == d.state && d'.lists == d.lists[l := q]
    requires OnceOk(q) && q.fired && UserOnly(q.ahead)
    ensures InPhase(d', Closed(l))
  {
  }

  // ---- all runs ----

  ghost predicate Valid(d: Deferred) {
    exists ph :: InPhase(d, ph)
  }

  lemma StepPhase(d: Deferred, ph: Phase, a: Action) returns (ph': Phase)
    requires InPhase(d, ph)
    ensures InPhase(Take(d, a), ph') && Follows(ph, ph')
    ensures ph.Closed? && a.Fire? ==> Take(d, a) == d
    ensures !ph.Open? ==> Take(d, a).lists[ph.l].log.accepted == d.lists[ph.l].log.accepted
  {
    match ph
    case Open => ph' := StepOpen(d, a);
    case Halfway(l, k) => ph' := StepHalfway(d, l, k, a);
    case Closed(l) => StepClosed(d, l, a); ph' := ph;
  }

  ghost function Run(d: Deferred, acts: seq<Action>): (r: Deferred)
    requires Valid(d)
    ensures Valid(r)
    decreases |acts|
  {
    if acts == [] then d
    else
      var before := Run(d, acts[..|acts| - 1]);
      assert Valid(Take(before, acts[|acts| - 1])) by {
        var ph :| InPhase(before, ph);
        var ph' := StepPhase(before, ph, acts[|acts| - 1]);
      }
      Take(before, acts[|acts| - 1])
  }

  /** Once the state has left pending it never changes. */
  lemma {:induction false} SettlesOnce(d: Deferred, acts: seq<Action>)
    requires Valid(d) && d.state != Pending
    ensures Run(d, acts).state == d.state
    decreases |acts|
  {
    if acts != [] {
      var n := |acts| - 1;
      SettlesOnce(d, acts[..n]);
      var before := Run(d, acts[..n]);
      var ph :| InPhase(before, ph);
      var ph' := StepPhase(before, ph, acts[n]);
    }
  }

  /** In every valid state one of the two lists has never called anything: no run calls both a done and a fail
      callback. */
  lemma OneSideOnly(d: Deferred)
    requires Valid(d)
    ensures d.lists[DONE].log.calls == [] || d.lists[FAIL].log.calls == []
    ensures d.state == Resolved ==> d.lists[FAIL].log.calls == []
    ensures d.state == Rejected ==> d.lists[DONE].log.calls == []
  {
    var ph :| InPhase(d, ph);
    SilentSide(d, ph);
    if !ph.Open? { assert 1 - ph.l == if ph.l == DONE then FAIL else DONE; }
  }

  lemma SilentSide(d: Deferred, ph: Phase)
    requires InPhase(d, ph)
    ensures ph.Open? ==> d.lists[DONE].log.calls == [] && d.lists[FAIL].log.calls == []
    ensures !ph.Open? ==> ph.l <= FAIL && d.lists[1 - ph.l].log.calls == []
    ensures d.state == Pending || (!ph.Open? && d.state == FinalState(ph.l))
  {
  }

  /** On a settled Deferred between passes, every registration ever made on the settled side has been called exactly
      once, in order of registration, with the arguments of the one fire the list took on. */
  lemma EachCalledOnce(d: Deferred, l: nat, i: nat)
    requires Valid(d) && l <= FAIL && d.state == FinalState(l) && !d.lists[l].firing
    ensures |d.lists[l].log.accepted| == 1
    ensures |d.lists[l].log.calls| == d.lists[l].nextId
    ensures i < d.lists[l].nextId ==>
              d.lists[l].log.calls[i].reg.id == i && d.lists[l].log.calls[i].data == d.lists[l].log.accepted[0]
  {
    var ph :| InPhase(d, ph);
    SettledIsClosed(d, ph, l);
    AllCalled(d.lists[l]);
  }

  lemma SettledIsClosed(d: Deferred, ph: Phase, l: nat)
    requires InPhase(d, ph) && l <= FAIL && d.state == FinalState(l) && !d.lists[l].firing
    ensures ph == Closed(l)
  {
  }

  /** Between passes, a list that has fired has called all its registrations. */
  lemma AllCalled(q: Queue)
    requires OnceOk(q) && q.fired && !q.firing
    ensures |q.log.accepted| == 1 && |q.log.calls| == q.nextId
    ensures forall i :: 0 <= i < q.nextId ==>
              q.log.calls[i].reg.id == i && q.log.calls[i].data == q.log.accepted[0]
  {
  }

  lemma {:induction false} RunKeepsAccepted(d: Deferred, ph: Phase, acts: seq<Action>) returns (ph': Phase)
    requires InPhase(d, ph) && !ph.Open?
    ensures Valid(d) && InPhase(Run(d, acts), ph') && !ph'.Open? && ph'.l == ph.l
    ensures Run(d, acts).lists[ph.l].log.accepted == d.lists[ph.l].log.accepted
    decreases |acts|
  {
    ph' := ph;
    if acts != [] {
      var n := |acts| - 1;
      ph' := RunKeepsAccepted(d, ph, acts[..n]);
      ph' := StepPhase(Run(d, acts[..n]), ph', acts[n]);
    }
  }

  lemma FireStarts(d: Deferred, l: nat, data: Data)
    requires InPhase(d, Open) && Quiet(d) && l <= FAIL
    ensures InPhase(Take(d, Fire(l, data)), Halfway(l, 0))
    ensures Take(d, Fire(l, data)).lists[l].log.accepted == [data]
  {
    FireSettles(d, l, data);
    assert Take(d, Fire(l, data)) == Update(d, l, FireWith(d.lists[l], data));
  }

  /** The first resolve or reject user code makes on a pending Deferred decides the arguments for good. */
  lemma FirstFireWins(d: Deferred, l: nat, data: Data, acts: seq<Action>)
    requires InPhase(d, Open) && Quiet(d) && l <= FAIL
    ensures Valid(Take(d, Fire(l, data)))
    ensures Run(Take(d, Fire(l, data)), acts).lists[l].log.accepted == [data]
  {
    FireStarts(d, l, data);
    var ph := RunKeepsAccepted(Take(d, Fire(l, data)), Halfway(l, 0), acts);
  }

  // ---- who is called ----

  /** The functions that were called, in order. */
  function CalledFns(calls: seq<Call>): (fns: seq<Fn>)
    ensures |fns| == |calls| && forall i :: 0 <= i < |calls| ==> fns[i] == calls[i].reg.fn
  {
    seq(|calls|, i requires 0 <= i < |calls| => calls[i].reg.fn)
  }

  ghost function Reach(acts: seq<Action>): (d: Deferred)
    ensures Valid(d) && FramesOk(d)
  {
    CreateOpen();
    Run(Create(), acts)
  }

  lemma ReachStep(acts: seq<Action>)
    requires acts != []
    ensures Reach(acts) == Take(Reach(acts[..|acts| - 1]), acts[|acts| - 1])
  {
  }

  /** What user code, while it had control, has passed to the list's add: to done, fail or progress. */
  ghost function Registered(acts: seq<Action>, l: nat): seq<Fn>
    decreases |acts|
  {
    if acts == [] then []
    else
      var n := |acts| - 1;
      Registered(acts[..n], l) + (if acts[n].Register? then Passed(Reach(acts[..n]), acts[n], l) else [])
  }

  ghost function Passed(d: Deferred, a: Action, l: nat): seq<Fn> {
    if a.Register? && a.l == l && Quiet(d) && UserFns(a.fns) then a.fns else []
  }

  /** The notices user code has given while the Deferred was pending. */
  ghost function Notices(acts: seq<Action>): seq<Data>
    decreases |acts|
  {
    if acts == [] then []
    else
      var n := |acts| - 1;
      var d := Reach(acts[..n]);
      Notices(acts[..n])
      + (if acts[n].Fire? && acts[n].l == PROGRESS && Quiet(d) && d.state == Pending then [acts[n].data] else [])
  }

  /** A live settling list has called, or will call, the constructor's callbacks and then fns; a progress list not yet
      locked holds fns. */
  ghost predicate Accounts(q: Queue, l: nat, fns: seq<Fn>) {
    if l == PROGRESS then Repeating(q) ==> Functions(q.past + q.ahead) == fns
    else q.alive ==>
      CalledFns(q.log.calls) + Functions(Waiting(q)) == [SET_STATE, DISABLE_OTHER, LOCK_PROGRESS] + fns
  }

  lemma LiveIsOnce(d: Deferred, ph: Phase, l: nat)
    requires InPhase(d, ph) && l <= FAIL && d.lists[l].alive
    ensures OnceOk(d.lists[l])
  {
  }

  lemma AddAccounts(q: Queue, l: nat, fns: seq<Fn>, more: seq<Fn>)
    requires l <= PROGRESS && Accounts(q, l, fns) && UserFns(more)
    requires if l == PROGRESS then ProgressOk(q) && (q.firing || q.ahead == []) else q.alive ==> OnceOk(q)
    ensures Accounts(Add(q, more), l, fns + more)
  {
    if q.alive {
      var list := q.past + q.ahead;
      var news := Fresh(list, more, false, q.nextId);
      FreshMeaning(list, more, false, q.nextId);
      if l == PROGRESS {
        NewsAppended(q, news);
        FunctionsAppend(list, news);
      } else {
        OnceAppended(q, news);
        FunctionsAppend(Waiting(q), news);
        OwnThenMore(CalledFns(q.log.calls), Functions(Waiting(q)), fns, more);
      }
    }
  }

  lemma NewsAppended(q: Queue, news: seq<Reg>)
    requires q.firing || q.ahead == []
    ensures Append(q, news).past + Append(q, news).ahead == q.past + q.ahead + news
  {
    var list := q.past + q.ahead + news;
    assert list[..|q.past + q.ahead|] + list[|q.past + q.ahead|..] == list;
    assert q.past + (q.ahead + news) == list;
  }

  lemma OnceAppended(q: Queue, news: seq<Reg>)
    requires OnceOk(q)
    ensures Waiting(Append(q, news)) == Waiting(q) + news && Append(q, news).log.calls == q.log.calls
  {
    if !q.firing && q.memory.Some? {
      assert q.past + q.ahead == [] && ([] + news)[0..] == news;
    }
  }

  lemma OwnThenMore(called: seq<Fn>, waiting: seq<Fn>, fns: seq<Fn>, more: seq<Fn>)
    requires called + waiting == [SET_STATE, DISABLE_OTHER, LOCK_PROGRESS] + fns
    ensures called + (waiting + more) == [SET_STATE, DISABLE_OTHER, LOCK_PROGRESS] + (fns + more)
  {
    assert called + (waiting + more) == called + waiting + more;
  }

  lemma FireAccounts(q: Queue, l: nat, fns: seq<Fn>, data: Data)
    requires l <= PROGRESS && Accounts(q, l, fns)
    requires l == PROGRESS || (q.alive ==> OnceOk(q))
    ensures Accounts(FireWith(q, data), l, fns)
  {
    var list := q.past + q.ahead;
    assert list[..0] + list[0..] == list;
    if l <= FAIL && q.alive { OnceFire(q, data); }
  }

  lemma CallAccounts(q: Queue, l: nat, fns: seq<Fn>)
    requires l <= PROGRESS && Accounts(q, l, fns) && q.alive && q.firing && q.ahead != []
    requires l == PROGRESS || OnceOk(q)
    ensures Accounts(CallHead(q), l, fns)
  {
    var called, called' := CalledFns(q.log.calls), CalledFns(CallHead(q).log.calls);
    if l == PROGRESS {
      assert q.past + [q.ahead[0]] + q.ahead[1..] == q.past + q.ahead;
    } else {
      assert called' + Functions(q.ahead[1..]) == called + Functions(q.ahead);
    }
  }

  lemma EndAccounts(q: Queue, l: nat, fns: seq<Fn>)
    requires l <= PROGRESS && Accounts(q, l, fns) && q.firing && !(q.alive && q.ahead != [])
    requires l == PROGRESS || (q.alive ==> OnceOk(q))
    ensures Accounts(End(q), l, fns)
  {
    var list := q.past + q.ahead;
    assert list[..0] + list[0..] == list && list + [] == list;
  }

  lemma AdvanceAccounts(d: Deferred, l: nat, fns: seq<Fn>)
    requires FramesOk(d) && d.frames != [] && l <= PROGRESS && Accounts(d.lists[l], l, fns)
    requires l == PROGRESS || (d.lists[l].alive ==> OnceOk(d.lists[l]))
    ensures Accounts(AdvanceTop(d).lists[l], l, fns)
  {
    if d.frames[|d.frames| - 1].l == l { OwnTurnAccounts(d, l, fns); } else { OthersTurn(d, l); }
  }

  lemma OwnTurnAccounts(d: Deferred, l: nat, fns: seq<Fn>)
    requires FramesOk(d) && d.frames != [] && d.frames[|d.frames| - 1].l == l && Accounts(d.lists[l], l, fns)
    requires l == PROGRESS || (d.lists[l].alive ==> OnceOk(d.lists[l]))
    ensures Accounts(AdvanceTop(d).lists[l], l, fns)
  {
    assert InFrames(d.frames, l);
    var q := d.lists[l];
    if q.alive && q.ahead != [] { CallAccounts(q, l, fns); } else { EndAccounts(q, l, fns); }
  }

  /** A turn of another list's pass leaves a list alone, disables it or locks it. */
  lemma OthersTurn(d: Deferred, l: nat)
    requires FramesOk(d) && d.frames != [] && l <= PROGRESS && d.frames[|d.frames| - 1].l != l
    ensures var q, q' := d.lists[l], AdvanceTop(d).lists[l];
            q' == q || !q'.alive || (l == PROGRESS && q'.stack.None?)
  {
  }

  lemma StepAccounts(d: Deferred, a: Action, l: nat, fns: seq<Fn>)
    requires FramesOk(d) && l <= PROGRESS && Accounts(d.lists[l], l, fns)
    requires if l == PROGRESS then ProgressOk(d.lists[l]) else d.lists[l].alive ==> OnceOk(d.lists[l])
    ensures Accounts(Take(d, a).lists[l], l, fns + Passed(d, a, l))
  {
    assert fns + [] == fns;
    match a
    case Register(m, more) =>
      if m == l && Quiet(d) && UserFns(more) { AddAccounts(d.lists[l], l, fns, more); }
    case Fire(m, data) =>
      if m == l { FireAccounts(d.lists[l], l, fns, data); }
    case Advance =>
      if d.frames != [] { AdvanceAccounts(d, l, fns); }
  }

  lemma TakeAccounts(d: Deferred, a: Action, l: nat, fns: seq<Fn>)
    requires Valid(d) && FramesOk(d) && l <= PROGRESS && Accounts(d.lists[l], l, fns)
    ensures Accounts(Take(d, a).lists[l], l, fns + if a.Register? then Passed(d, a, l) else [])
  {
    var ph :| InPhase(d, ph);
    if l <= FAIL && d.lists[l].alive { LiveIsOnce(d, ph, l); }
    StepAccounts(d, a, l, fns);
  }

  /** On every run of a new Deferred: whatever user code passed to done or fail has been called, or waits, on that very
      list, in order and behind the constructor's own callbacks; and what it passed to progress is in that list. */
  lemma {:induction false} RunAccounts(acts: seq<Action>, l: nat)
    requires l <= PROGRESS
    ensures Accounts(Reach(acts).lists[l], l, Registered(acts, l))
    decreases |acts|
  {
    CreateOpen();
    if acts == [] {
      CreateAccounts(l);
    } else {
      var n := |acts| - 1;
      RunAccounts(acts[..n], l);
      TakeAccounts(Reach(acts[..n]), acts[n], l, Registered(acts[..n], l));
      ReachStep(acts);
    }
  }

  lemma CreateAccounts(l: nat)
    requires l <= PROGRESS
    ensures Accounts(Create().lists[l], l, [])
  {
    if l <= FAIL { OwnWaiting(Init(ONCE)); }
  }

  lemma OwnWaiting(q: Queue)
    requires q == Init(ONCE)
    ensures var own := [SET_STATE, DISABLE_OTHER, LOCK_PROGRESS];
            var q' := Add(q, own);
            Functions(Waiting(q')) == own && q'.log.calls == []
  {
    var own := [SET_STATE, DISABLE_OTHER, LOCK_PROGRESS];
    FreshMeaning(q.past + q.ahead, own, false, 0);
    NewsAppended(q, Fresh(q.past + q.ahead, own, false, 0));
    FunctionsAppend(q.past + q.ahead, Fresh(q.past + q.ahead, own, false, 0));
  }

  lemma StepNotices(d: Deferred, a: Action)
    requires Valid(d) && FramesOk(d)
    ensures var before, after := d.lists[PROGRESS].log.accepted, Take(d, a).lists[PROGRESS].log.accepted;
            if a.Fire? && a.l == PROGRESS && Quiet(d) && d.state == Pending then after == before + [a.data]
            else after == before
  {
    if a.Fire? && a.l == PROGRESS && Quiet(d) {
      var ph :| InPhase(d, ph);
      NoticeTaken(d, ph, a.data);
    } else {
      NoNotice(d, a);
    }
  }

  lemma NoNotice(d: Deferred, a: Action)
    requires FramesOk(d) && !(a.Fire? && a.l == PROGRESS && Quiet(d))
    ensures Take(d, a).lists[PROGRESS].log.accepted == d.lists[PROGRESS].log.accepted
  {
    match a
    case Register(m, fns) => assert Add(d.lists[PROGRESS], fns).log.accepted == d.lists[PROGRESS].log.accepted;
    case Fire(m, data) =>
    case Advance => if d.frames != [] { TurnTakesNone(d); }
  }

  lemma NoticeTaken(d: Deferred, ph: Phase, data: Data)
    requires InPhase(d, ph) && Quiet(d)
    ensures FireWith(d.lists[PROGRESS], data).log.accepted
            == d.lists[PROGRESS].log.accepted + (if d.state == Pending then [data] else [])
  {
    FireTaken(d.lists[PROGRESS], data);
    if !ph.Open? { assert Locked(d.lists[PROGRESS]); }
  }

  lemma TurnTakesNone(d: Deferred)
    requires |d.lists| == 3 && d.frames != [] && d.frames[|d.frames| - 1].l <= PROGRESS
    ensures AdvanceTop(d).lists[PROGRESS].log.accepted == d.lists[PROGRESS].log.accepted
  {
    var l := d.frames[|d.frames| - 1].l;
    var q := d.lists[l];
    assert CallbackQueue.End(q).log.accepted == q.log.accepted;
  }

  /** The progress list takes on every notice given while the Deferred is pending, and no other. */
  lemma {:induction false} RunNotices(acts: seq<Action>)
    ensures Reach(acts).lists[PROGRESS].log.accepted == Notices(acts)
    decreases |acts|
  {
    CreateOpen();
    if acts != [] {
      var n := |acts| - 1;
      RunNotices(acts[..n]);
      StepNotices(Reach(acts[..n]), acts[n]);
      ReachStep(acts);
    }
  }

  // ---- each list is a callback list of its own ----

  /** The list has only been through the actions a Deferred can cause. */
  ghost predicate ListRun(opts: Options, q: Queue) {
    exists acts :: q == CallbackQueue.Run(Init(opts), acts) && NeverForgets(acts)
  }

  ghost predicate NeverForgets(acts: seq<CallbackQueue.Action>) {
    Stopping !in acts && Emptying !in acts
  }

  lemma ListStep(opts: Options, q: Queue, a: CallbackQueue.Action)
    requires ListRun(opts, q) && NeverForgets([a])
    ensures ListRun(opts, CallbackQueue.Step(q, a))
  {
    var acts :| q == CallbackQueue.Run(Init(opts), acts) && NeverForgets(acts);
    C.RunOne(q, a);
    C.RunAppend(Init(opts), acts, [a]);
    assert NeverForgets(acts + [a]);
  }

  lemma StepListRun(d: Deferred, a: Action, l: nat, opts: Options)
    requires FramesOk(d) && l <= PROGRESS && ListRun(opts, d.lists[l])
    ensures ListRun(opts, Take(d, a).lists[l])
  {
    var q := d.lists[l];
    match a
    case Register(m, fns) => ListStep(opts, q, Do(OpAdd(fns)));
    case Fire(m, data) => ListStep(opts, q, Do(OpFire(data)));
    case Advance =>
      ListStep(opts, q, Turning);
      ListStep(opts, q, Do(OpDisable));
      ListStep(opts, q, Do(OpLock));
      if d.frames != [] { assert InFrames(d.frames, d.frames[|d.frames| - 1].l); }
  }

  /** On every run of a Deferred, each of its lists has been through a run of its own. */
  lemma {:induction false} RunLists(acts: seq<Action>, l: nat)
    requires l <= PROGRESS
    ensures ListRun(if l == PROGRESS then REPEAT else ONCE, Reach(acts).lists[l])
    decreases |acts|
  {
    CreateOpen();
    var opts := if l == PROGRESS then REPEAT else ONCE;
    if acts == [] {
      InitRun(l, opts);
    } else {
      var n := |acts| - 1;
      RunLists(acts[..n], l);
      StepListRun(Reach(acts[..n]), acts[n], l, opts);
      ReachStep(acts);
    }
  }

  /** And so it keeps what such runs keep: order of calls, order of fires, and the memory of the last fire. */
  lemma ListKeeps(opts: Options, q: Queue)
    requires ListRun(opts, q) && opts.memory
    ensures q.opts == opts && Orderly(q) && Fifo(q) && Remembers(q) && (q.alive && q.fired ==> q.memory.Some?)
  {
    var own :| q == CallbackQueue.Run(Init(opts), own) && NeverForgets(own);
    RunOrderly(opts, own);
    RunFifo(opts, own);
    RunRemembers(opts, own);
    assert Emptying !in own;
    MemoryUnlessStopped(opts, own);
  }

  lemma InitRun(l: nat, opts: Options)
    requires l <= PROGRESS && opts == if l == PROGRESS then REPEAT else ONCE
    ensures ListRun(opts, Create().lists[l])
  {
    assert Init(opts) == CallbackQueue.Run(Init(opts), []) && NeverForgets([]);
    ListStep(opts, Init(opts), Do(OpAdd([SET_STATE, DISABLE_OTHER, LOCK_PROGRESS])));
  }

  /** An idle list with a memory calls what is added to it, and nothing else, with the last fire's arguments. */
  lemma LateAdd(q: Queue, fns: seq<Fn>)
    requires Fifo(q) && Remembers(q) && !q.opts.unique && q.alive && q.memory.Some? && !q.firing
    ensures var q' := Add(q, fns);
            && q'.firing && Functions(q'.ahead) == fns && q'.log.calls == q.log.calls
            && q.log.started != [] && q'.data == q.log.started[|q.log.started| - 1]
    ensures q.stack.Some? ==> q.log.accepted == q.log.started
  {
    var list := q.past + q.ahead;
    var news := Fresh(list, fns, false, q.nextId);
    FreshMeaning(list, fns, false, q.nextId);
    assert (list + news)[|list|..] == news;
  }

  /** What is registered for progress after notices have been given is called with the latest one. */
  lemma LateListener(acts: seq<Action>, fns: seq<Fn>)
    requires Quiet(Reach(acts)) && UserFns(fns)
    ensures var before := Reach(acts).lists[PROGRESS];
            var after := Take(Reach(acts), Register(PROGRESS, fns)).lists[PROGRESS];
            before.alive && before.fired && !before.firing ==>
              && after.firing && Functions(after.ahead) == fns
              && (before.stack.Some? ==> Notices(acts) != [] && after.data == Notices(acts)[|Notices(acts)| - 1])
  {
    RunLists(acts, PROGRESS);
    ListKeeps(REPEAT, Reach(acts).lists[PROGRESS]);
    RunNotices(acts);
    ProgressAdded(Reach(acts), fns, Reach(acts).lists[PROGRESS]);
  }

  lemma ProgressAdded(d: Deferred, fns: seq<Fn>, q: Queue)
    requires FramesOk(d) && Quiet(d) && UserFns(fns) && q == d.lists[PROGRESS] && q.opts == REPEAT
    requires Fifo(q) && Remembers(q) && (q.alive && q.fired ==> q.memory.Some?)
    ensures var after, given := Take(d, Register(PROGRESS, fns)).lists[PROGRESS], q.log.accepted;
            q.alive && q.fired && !q.firing ==>
              && after.firing && Functions(after.ahead) == fns
              && (q.stack.Some? ==> given != [] && after.data == given[|given| - 1])
  {
    if q.alive && q.fired && !q.firing { LateAdd(q, fns); }
  }

  /** A settled Deferred between passes has called, on the settled side, the constructor's callbacks and then just what
      user code has passed to that side, in order, all with the arguments that settled it. */
  lemma CalledAreRegistered(acts: seq<Action>, l: nat)
    requires l <= FAIL && Reach(acts).state == FinalState(l) && !Reach(acts).lists[l].firing
    ensures var q := Reach(acts).lists[l];
            && CalledFns(q.log.calls) == [SET_STATE, DISABLE_OTHER, LOCK_PROGRESS] + Registered(acts, l)
            && |q.log.accepted| == 1
            && forall i :: 0 <= i < |q.log.calls| ==> q.log.calls[i].data == q.log.accepted[0]
  {
    var d := Reach(acts);
    RunAccounts(acts, l);
    var ph :| InPhase(d, ph);
    SettledIsClosed(d, ph, l);
    AllCalled(d.lists[l]);
    assert CalledFns(d.lists[l].log.calls) + [] == CalledFns(d.lists[l].log.calls);
  }

  // ---- the object ----

  /** A pass of list l is executing a user's callback. */
  predicate UserFrame(frames: seq<Frame>, l: nat) {
    exists i :: 0 <= i < |frames| && frames[i] == Frame(l, true)
  }

  /** Three Callbacks objects; frames is the script engine's stack of passes under way. */
  class DeferredObject {
    const done: C.Callbacks
    const fail: C.Callbacks
    const progress: C.Callbacks
    var state: State
    var frames: seq<Frame>

    function List(l: nat): C.Callbacks {
      if l == DONE then done else if l == FAIL then fail else progress
    }

    ghost function View(): Deferred
      reads this, done, fail, progress
    {
      Deferred([done.view, fail.view, progress.view], state, frames)
    }

    /** Three lists, each with its options. */
    ghost predicate Wired() {
      && done != fail && done != progress && fail != progress
      && done.opts == ONCE && fail.opts == ONCE && progress.opts == REPEAT
    }

    ghost predicate Valid()
      reads this, done, fail, progress
    {
      && Wired()
      && done.Valid() && fail.Valid() && progress.Valid()
      && FramesOk(View())
      && InCalls()
    }

    ghost predicate InCalls()
      reads this, done, fail, progress
    {
      && (done.inCall <==> UserFrame(frames, DONE))
      && (fail.inCall <==> UserFrame(frames, FAIL))
      && (progress.inCall <==> UserFrame(frames, PROGRESS))
    }

    constructor ()
      ensures Valid() && View() == Create() && InPhase(View(), Open) && frames == []
      ensures fresh(done) && fresh(fail) && fresh(progress)
    {
      done := new C.Callbacks(ONCE);
      fail := new C.Callbacks(ONCE);
      progress := new C.Callbacks(REPEAT);
      state := Pending;
      frames := [];
      new;
      Install(done);
      Install(fail);
      assert View() == Create();
      CreateOpen();
      assert forall l :: !UserFrame([], l);
    }

    /** User code may call an operation of list l: if the list is firing, it is from inside one of its callbacks. */
    lemma QuietInCall(l: nat)
      requires Valid() && Quiet(View()) && l <= PROGRESS
      ensures List(l).firing ==> List(l).inCall
    {
      assert View().lists[l].firing == List(l).firing;
      if List(l).firing {
        var i :| 0 <= i < |frames| && frames[i].l == l;
        assert frames[i] == Frame(l, true);
      }
    }

    /** After an operation on list l alone, the pass it may have begun is put on the stack. */
    method Entered(l: nat, wasFiring: bool, ghost d: Deferred, ghost q: Queue)
      requires l <= PROGRESS && FramesOk(d) && OnlyList(l, d, q)
      requires wasFiring == d.lists[l].firing && (wasFiring ==> q.firing)
      modifies `frames
      ensures Valid() && View() == Update(d, l, q)
    {
      UpdateFrames(d, l, q);
      ghost var before := frames;
      if List(l).firing && !wasFiring {
        frames := frames + [Frame(l, false)];
      }
      EnteredFrames(before, frames, l);
      OneReplaced(d.lists, l, q);
    }

    /** The three lists are sound, and only list l has moved on from d, to q. */
    ghost predicate OnlyList(l: nat, d: Deferred, q: Queue)
      reads this, done, fail, progress
    {
      && Wired() && done.Valid() && fail.Valid() && progress.Valid()
      && FramesOk(d) && Quiet(d) && d.state == state && d.frames == frames
      && done.view == (if l == DONE then q else d.lists[DONE])
      && fail.view == (if l == FAIL then q else d.lists[FAIL])
      && progress.view == (if l == PROGRESS then q else d.lists[PROGRESS])
      && InCalls()
    }

    method AddTo(l: nat, fns: seq<Fn>, ghost d: Deferred)
      requires l <= PROGRESS && Valid() && d == View() && Quiet(d)
      modifies List(l)
      ensures OnlyList(l, d, Add(d.lists[l], fns))
    {
      QuietInCall(l);
      if l == DONE { done.Add(fns); } else if l == FAIL { fail.Add(fns); } else { progress.Add(fns); }
    }

    /** done, fail or progress: list.add, called by user code. */
    method Register(l: nat, fns: seq<Fn>)
      requires Valid() && Quiet(View()) && l <= PROGRESS && UserFns(fns)
      modifies this, done, fail, progress
      ensures Valid()
      ensures View() == Take(old(View()), Action.Register(l, fns))
      ensures Joined(old(View().lists[l]), View().lists[l], fns) && OthersSame(old(View().lists), View().lists, l)
    {
      ghost var d := View();
      QuietInCall(l);
      var wasFiring := List(l).firing;
      AddTo(l, fns, d);
      Entered(l, wasFiring, d, Add(d.lists[l], fns));
      AddJoined(d, l, fns);
    }

    method FireOn(l: nat, data: Data, ghost d: Deferred)
      requires l <= PROGRESS && Valid() && d == View() && Quiet(d)
      modifies List(l)
      ensures OnlyList(l, d, FireWith(d.lists[l], data))
    {
      QuietInCall(l);
      if l == DONE { done.FireWith(data); } else if l == FAIL { fail.FireWith(data); } else { progress.FireWith(data); }
    }

    /** resolve, reject or notify: list.fireWith, called by user code. */
    method Fire(l: nat, data: Data)
      requires Valid() && Quiet(View()) && l <= PROGRESS
      modifies this, done, fail, progress
      ensures Valid()
      ensures View() == Take(old(View()), Action.Fire(l, data))
      ensures Fired(old(View().lists[l]), View().lists[l], data) && OthersSame(old(View().lists), View().lists, l)
    {
      ghost var d := View();
      var wasFiring := List(l).firing;
      FireOn(l, data, d);
      Entered(l, wasFiring, d, FireWith(d.lists[l], data));
      FireFired(d, l, data);
    }

    // ---- a turn of the innermost pass ----

    /** Between Returned and the end of the turn: where the lists stand, and who is inside a callback. */
    ghost predicate MidTurn(l: nat, d: Deferred, lists: seq<Queue>, inCall: bool)
      reads this, done, fail, progress
    {
      && Wired() && done.Valid() && fail.Valid() && progress.Valid()
      && [done.view, fail.view, progress.view] == lists
      && (done.inCall <==> if l == DONE then inCall else UserFrame(d.frames, DONE))
      && (fail.inCall <==> if l == FAIL then inCall else UserFrame(d.frames, FAIL))
      && (progress.inCall <==> if l == PROGRESS then inCall else UserFrame(d.frames, PROGRESS))
    }

    ghost predicate Innermost(l: nat, d: Deferred)
    {
      FramesOk(d) && d.frames != [] && d.frames[|d.frames| - 1].l == l && d.lists[l].firing
    }

    /** The callback under way, if any, has returned; ask for the next one. */
    method NextTurn(l: nat, ghost d: Deferred) returns (r: Option<Reg>)
      requires Valid() && d == View() && Innermost(l, d)
      modifies List(l)
      ensures r.Some? <==> d.lists[l].alive && d.lists[l].ahead != []
      ensures r.Some? ==> r.value == d.lists[l].ahead[0] && MidTurn(l, d, d.lists[l := CallHead(d.lists[l])], true)
      ensures r.None? ==> MidTurn(l, d, d.lists, false)
    {
      var inUser := frames[|frames| - 1].inUser;
      InnermostFrame(d.frames);
      if l == DONE {
        r := TurnOf(done, inUser);
      } else if l == FAIL {
        r := TurnOf(fail, inUser);
      } else {
        r := TurnOf(progress, inUser);
      }
    }

    method DisableOther(l: nat, ghost d: Deferred, ghost lists: seq<Queue>)
      requires l <= FAIL && MidTurn(l, d, lists, true)
      modifies List(1 - l)
      ensures MidTurn(l, d, lists[1 - l := Disable(lists[1 - l])], true)
    {
      if l == DONE { fail.Disable(); } else { done.Disable(); }
    }

    method LockProgress(l: nat, ghost d: Deferred, ghost lists: seq<Queue>)
      requires l <= FAIL && MidTurn(l, d, lists, true)
      modifies progress
      ensures MidTurn(l, d, lists[PROGRESS := Lock(lists[PROGRESS])], true)
    {
      progress.Lock();
    }

    /** The callback of list l that was just called returns at once. */
    method ReturnAtOnce(l: nat, ghost d: Deferred, ghost lists: seq<Queue>)
      requires l <= PROGRESS && Wired() && MidTurn(l, d, lists, true)
      modifies List(l)
      ensures MidTurn(l, d, lists, false)
    {
      var stop;
      if l == DONE { stop := done.Returned(false); }
      else if l == FAIL { stop := fail.Returned(false); }
      else { stop := progress.Returned(false); }
    }

    /** One of the constructor's own callbacks runs to its end. */
    method RunOwn(l: nat, fn: Fn, ghost d: Deferred, ghost lists: seq<Queue>, ghost lists': seq<Queue>)
      requires l <= PROGRESS && fn <= LOCK_PROGRESS && MidTurn(l, d, lists, true)
      requires lists' == Effect(d.(lists := lists), l, fn).lists
      modifies this`state, done, fail, progress
      ensures MidTurn(l, d, lists', false)
      ensures state == if l <= FAIL && fn == SET_STATE then FinalState(l) else old(state)
    {
      if l <= FAIL {
        if fn == SET_STATE {
          state := FinalState(l);
        } else if fn == DISABLE_OTHER {
          DisableOther(l, d, lists);
        } else {
          LockProgress(l, d, lists);
        }
      }
      ReturnAtOnce(l, d, lists');
    }

    method EndPass(l: nat, ghost d: Deferred)
      requires l <= PROGRESS && |d.lists| == 3 && d.lists[l].firing && MidTurn(l, d, d.lists, false)
      modifies List(l)
      ensures MidTurn(l, d, d.lists[l := End(d.lists[l])], false)
      ensures List(l).firing == End(d.lists[l]).firing
    {
      ghost var q := End(d.lists[l]);
      OneReplaced(d.lists, l, q);
      if l == DONE { done.FireEnd(); } else if l == FAIL { fail.FireEnd(); } else { progress.FireEnd(); }
    }

    /** The stack of passes after the turn of the innermost one. */
    method SetFrames(l: nat, frames': seq<Frame>, ghost d: Deferred, ghost target: Deferred, ghost inUser: bool)
      requires l <= PROGRESS && Innermost(l, d) && d.frames == frames
      requires TopChanged(frames, frames', l) && target.frames == frames' && target.state == state && FramesOk(target)
      requires MidTurn(l, d, target.lists, inUser)
      requires inUser == (|frames'| == |frames| && frames'[|frames| - 1].inUser)
      modifies `frames
      ensures Valid() && View() == target
    {
      TopReplaced(frames, frames', l);
      frames := frames';
    }

    /** The innermost pass makes its next turn: the callback under way, if any, has returned. */
    method Advance()
      requires Valid() && frames != []
      modifies this, done, fail, progress
      ensures Valid()
      ensures View() == Take(old(View()), Action.Advance)
    {
      ghost var d := View();
      var n := |frames| - 1;
      var l := frames[n].l;
      assert InFrames(d.frames, l);
      AdvanceFrames(d);
      var r := NextTurn(l, d);
      if r.Some? {
        CallTurn(l, r.value.fn, d);
      } else {
        EndTurn(l, d);
      }
    }

    /** The pass has called fn: a user's callback has begun, one of the constructor's own runs to its end. */
    method CallTurn(l: nat, fn: Fn, ghost d: Deferred)
      requires l <= PROGRESS && Innermost(l, d) && d.frames == frames && d.state == state && FramesOk(AdvanceTop(d))
      requires d.lists[l].alive && d.lists[l].ahead != [] && fn == d.lists[l].ahead[0].fn
      requires MidTurn(l, d, d.lists[l := CallHead(d.lists[l])], true)
      modifies this, done, fail, progress
      ensures Valid() && View() == AdvanceTop(d)
    {
      CallTarget(d, l, fn);
      if fn <= LOCK_PROGRESS {
        OwnTurn(l, fn, d, d.lists[l := CallHead(d.lists[l])], AdvanceTop(d));
      } else {
        StayOn(l, true, d, AdvanceTop(d));
      }
    }

    /** The callback is one of the constructor's own; target is the state that the turn leads to. */
    method OwnTurn(l: nat, fn: Fn, ghost d: Deferred, ghost lists: seq<Queue>, ghost target: Deferred)
      requires l <= PROGRESS && fn <= LOCK_PROGRESS && Innermost(l, d) && d.frames == frames && d.state == state
      requires MidTurn(l, d, lists, true) && FramesOk(target)
      requires target.lists == Effect(d.(lists := lists), l, fn).lists
      requires target.frames == frames[|frames| - 1 := Frame(l, false)]
      requires target.state == if l <= FAIL && fn == SET_STATE then FinalState(l) else state
      modifies this, done, fail, progress
      ensures Valid() && View() == target
    {
      RunOwn(l, fn, d, lists, target.lists);
      StayOn(l, false, d, target);
    }

    /** The pass goes on: it is inside a user's callback, or has come back from one of the constructor's. */
    method StayOn(l: nat, inUser: bool, ghost d: Deferred, ghost target: Deferred)
      requires l <= PROGRESS && Innermost(l, d) && d.frames == frames && FramesOk(target) && target.state == state
      requires target.frames == frames[|frames| - 1 := Frame(l, inUser)] && MidTurn(l, d, target.lists, inUser)
      modifies `frames
      ensures Valid() && View() == target
    {
      TopSet(frames, l, inUser);
      SetFrames(l, frames[|frames| - 1 := Frame(l, inUser)], d, target, inUser);
    }

    /** The pass has nobody left to call. */
    method EndTurn(l: nat, ghost d: Deferred)
      requires l <= PROGRESS && Innermost(l, d) && d.frames == frames && d.state == state && FramesOk(AdvanceTop(d))
      requires !(d.lists[l].alive && d.lists[l].ahead != []) && MidTurn(l, d, d.lists, false)
      modifies this, done, fail, progress
      ensures Valid() && View() == AdvanceTop(d)
    {
      ghost var target := AdvanceTop(d);
      EndPass(l, d);
      var frames' := if List(l).firing then frames[|frames| - 1 := Frame(l, false)] else frames[..|frames| - 1];
      assert target == Deferred(d.lists[l := End(d.lists[l])], state, frames');
      SetFrames(l, frames', d, target, false);
    }
  }

  /** A live list has gained just these functions, behind all it had, and a pass that is under way, or now begins
      because the list remembers a fire, will call them; a disabled list is as it was. */
  ghost predicate Joined(q: Queue, q': Queue, fns: seq<Fn>) {
    if !q.alive then q' == q
    else
      && Functions(q'.past + q'.ahead) == Functions(q.past + q.ahead) + fns && q'.log.calls == q.log.calls
      && (q.firing ==> Functions(q'.ahead) == Functions(q.ahead) + fns && q'.data == q.data)
      && (!q.firing && q.memory.Some? ==> q'.firing && Functions(q'.ahead) == fns && q'.data == q.memory.value)
      && (!q.firing && q.memory.None? ==> !q'.firing)
  }

  /** A list that still takes fires on has taken this one on; any other is as it was. */
  ghost predicate Fired(q: Queue, q': Queue, data: Data) {
    if q.alive && (!q.fired || q.stack.Some?)
    then q'.firing && q'.log.accepted == q.log.accepted + [data] && (!q.firing ==> q'.data == data)
    else q' == q
  }

  ghost predicate OthersSame(before: seq<Queue>, after: seq<Queue>, l: nat) {
    |after| == |before| && forall m :: 0 <= m < |before| && m != l ==> after[m] == before[m]
  }

  lemma FireFired(d: Deferred, l: nat, data: Data)
    requires l < |d.lists|
    ensures var q := FireWith(d.lists[l], data);
            Fired(d.lists[l], q, data) && OthersSame(d.lists, Update(d, l, q).lists, l) && Update(d, l, q).lists[l] == q
  {
    FireTaken(d.lists[l], data);
  }

  lemma AddJoined(d: Deferred, l: nat, fns: seq<Fn>)
    requires l < |d.lists| && !d.lists[l].opts.unique && (d.lists[l].firing || d.lists[l].ahead == [])
    ensures var q := Add(d.lists[l], fns);
            Joined(d.lists[l], q, fns) && OthersSame(d.lists, Update(d, l, q).lists, l) && Update(d, l, q).lists[l] == q
  {
    if d.lists[l].alive { FnsJoin(d.lists[l], fns); }
  }

  lemma FnsJoin(q: Queue, fns: seq<Fn>)
    requires !q.opts.unique && q.alive && (q.firing || q.ahead == [])
    ensures Joined(q, Add(q, fns), fns)
  {
    var list := q.past + q.ahead;
    var news := Fresh(list, fns, false, q.nextId);
    FreshMeaning(list, fns, false, q.nextId);
    NewsAppended(q, news);
    FunctionsAppend(list, news);
    FunctionsAppend(q.ahead, news);
    assert (list + news)[|list|..] == news;
  }

  predicate TopChanged(before: seq<Frame>, after: seq<Frame>, l: nat)
  {
    && before != [] && before[|before| - 1].l == l
    && (after == before[..|before| - 1]
        || (|after| == |before| && after == before[|before| - 1 := after[|before| - 1]] && after[|before| - 1].l == l))
  }

  lemma TopSet(frames: seq<Frame>, l: nat, inUser: bool)
    requires frames != [] && frames[|frames| - 1].l == l
    ensures TopChanged(frames, frames[|frames| - 1 := Frame(l, inUser)], l)
    ensures frames[|frames| - 1 := Frame(l, inUser)][|frames| - 1].inUser == inUser
  {
  }

  lemma AdvanceFrames(d: Deferred)
    requires FramesOk(d) && d.frames != []
    ensures FramesOk(AdvanceTop(d))
  {
    var l := d.frames[|d.frames| - 1].l;
    assert InFrames(d.frames, l);
    if d.lists[l].alive && d.lists[l].ahead != [] {
      CallFrames(d, l);
    } else {
      TopFrames(d, End(d.lists[l]), false);
    }
  }

  lemma CallFrames(d: Deferred, l: nat)
    requires FramesOk(d) && d.frames != [] && d.frames[|d.frames| - 1].l == l
    requires d.lists[l].alive && d.lists[l].ahead != [] && d.lists[l].firing
    ensures FramesOk(AdvanceTop(d))
  {
    var n, q := |d.frames| - 1, d.lists[l];
    var fn := q.ahead[0].fn;
    TopFrames(d, CallHead(q), fn > LOCK_PROGRESS);
    EffectFrames(d.(lists := d.lists[l := CallHead(q)], frames := d.frames[n := Frame(l, fn > LOCK_PROGRESS)]), l, fn);
  }

  /** Disabling a list or locking it neither begins nor ends a pass. */
  lemma EffectFrames(d: Deferred, l: nat, fn: Fn)
    requires FramesOk(d)
    ensures FramesOk(Effect(d, l, fn))
  {
    var lists := Effect(d, l, fn).lists;
    assert |lists| == 3 && forall m :: 0 <= m < 3 ==> lists[m].firing == d.lists[m].firing;
  }

  /** What a turn that calls fn comes to. */
  lemma CallTarget(d: Deferred, l: nat, fn: Fn)
    requires FramesOk(d) && d.frames != [] && d.frames[|d.frames| - 1].l == l
    requires d.lists[l].alive && d.lists[l].ahead != [] && fn == d.lists[l].ahead[0].fn
    ensures var lists := d.lists[l := CallHead(d.lists[l])];
            var effect := Effect(d.(lists := lists), l, fn);
            && AdvanceTop(d).frames == d.frames[|d.frames| - 1 := Frame(l, fn > LOCK_PROGRESS)]
            && AdvanceTop(d).lists == (if fn <= LOCK_PROGRESS then effect.lists else lists)
            && AdvanceTop(d).state == (if l <= FAIL && fn == SET_STATE then FinalState(l) else d.state)
  {
  }

  /** Changing or popping the top frame only changes who is called on its own list. */
  lemma TopReplaced(before: seq<Frame>, after: seq<Frame>, l: nat)
    requires TopChanged(before, after, l)
    requires forall i, j :: 0 <= i < j < |before| ==> before[i].l != before[j].l
    ensures forall m: nat :: m != l ==> (UserFrame(after, m) <==> UserFrame(before, m))
    ensures UserFrame(after, l) <==> |after| == |before| && after[|before| - 1].inUser
  {
    var n := |before| - 1;
    forall m: nat ensures m != l ==> (UserFrame(after, m) <==> UserFrame(before, m)) {
      if m != l && UserFrame(before, m) {
        var i :| 0 <= i < |before| && before[i] == Frame(m, true);
        assert after[i] == Frame(m, true);
      }
    }
    if |after| == |before| && after[n].inUser { assert after[n] == Frame(l, true); }
  }

  /** The callbacks the constructor adds to a settling list. */
  method Install(list: C.Callbacks)
    requires list.Valid() && !list.firing && !list.inCall && list.view == Init(ONCE)
    modifies list
    ensures list.Valid() && !list.firing && !list.inCall && Unfired(list.view)
    ensures list.view == Add(Init(ONCE), [SET_STATE, DISABLE_OTHER, LOCK_PROGRESS])
  {
    OwnAdded(list.view);
    list.Add([SET_STATE, DISABLE_OTHER, LOCK_PROGRESS]);
  }

  /** A callback of the list has returned if one was under way; the next one is called if there is one. */
  method TurnOf(list: C.Callbacks, inUser: bool) returns (r: Option<Reg>)
    requires list.Valid() && list.firing && (list.inCall <==> inUser)
    modifies list
    ensures list.Valid() && list.inCall == r.Some?
    ensures r.Some? <==> old(list.view).alive && old(list.view).ahead != []
    ensures r.Some? ==> r.value == old(list.view).ahead[0] && list.view == CallHead(old(list.view))
    ensures r.None? ==> list.view == old(list.view) && list.firing
  {
    if inUser {
      var stop := list.Returned(false);
    }
    r := list.NextCallback();
  }

  lemma InnermostFrame(frames: seq<Frame>)
    requires frames != [] && forall i, j :: 0 <= i < j < |frames| ==> frames[i].l != frames[j].l
    ensures var top := frames[|frames| - 1]; UserFrame(frames, top.l) <==> top.inUser
  {
    if frames[|frames| - 1].inUser {
      assert frames[|frames| - 1] == Frame(frames[|frames| - 1].l, true);
    }
  }

  lemma OneReplaced(lists: seq<Queue>, l: nat, q: Queue)
    requires |lists| == 3 && l <= PROGRESS
    ensures lists[l := q] == [if l == DONE then q else lists[DONE], if l == FAIL then q else lists[FAIL],
                              if l == PROGRESS then q else lists[PROGRESS]]
  {
  }

  lemma EnteredFrames(before: seq<Frame>, after: seq<Frame>, l: nat)
    requires after == before || after == before + [Frame(l, false)]
    ensures forall m: nat :: UserFrame(after, m) <==> UserFrame(before, m)
  {
    forall m: nat ensures UserFrame(after, m) <==> UserFrame(before, m) {
      if UserFrame(before, m) {
        var i :| 0 <= i < |before| && before[i] == Frame(m, true);
        assert after[i] == Frame(m, true);
      }
    }
  }
}
