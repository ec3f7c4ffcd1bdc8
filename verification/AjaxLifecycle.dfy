/** The life of jQuery.ajax requests: each runs its own program, but handlers, timers and transports may act on any
    request between two of its steps. Global events and the counter jQuery.active are shared. */
module AjaxLifecycle {
  import opened Wrappers

  /** Where the body of ajax() has got to. */
  datatype Pc = Prefilters | BeforeSending | Connecting | Sending | Sent | Returned

  datatype GlobalEvent = AjaxStart | AjaxStop

  /** state is the jqXHR's 0, 1 or 2. dones counts the runs of done past its guard, tails those that have not reached
      the counter yet, outs those that have decremented it. resent records a send after the request was done. */
  datatype Request = Request(
    pc: Pc, state: nat, wantsGlobal: bool, hasBeforeSend: bool, fireGlobals: bool, transport: bool, timer: bool,
    settled: Option<bool>, dones: nat, tails: nat, outs: nat, resent: bool)

  function NewRequest(wantsGlobal: bool, hasBeforeSend: bool): Request {
    Request(Prefilters, 0, wantsGlobal, hasBeforeSend, false, false, false, None, 0, 0, 0, false)
  }

  /** done up to its callbacks: called once per state, and the deferred settles only the first time. */
  function Finish(r: Request, success: bool): Request {
    if r.state == 2 then r
    else r.(state := 2, timer := false, transport := false, dones := r.dones + 1, tails := r.tails + 1,
            settled := if r.settled.Some? then r.settled else Some(success))
  }

  /** A beforeSend that cancels, or has aborted the request, ends it; otherwise the transport is next. */
  function Sendable(r: Request, cancel: bool): Request {
    if r.hasBeforeSend && (cancel || r.state == 2) then Finish(r, false).(pc := Returned) else r.(pc := Connecting)
  }

  ghost predicate RequestOk(r: Request) {
    && r.state <= 2
    && (r.fireGlobals ==> r.wantsGlobal && r.pc != Prefilters)
    && (r.pc != Prefilters && r.pc != Returned && r.wantsGlobal ==> r.fireGlobals)
    && (if r.fireGlobals then r.dones == r.tails + r.outs else r.outs == 0 && r.tails <= r.dones)
    && (r.settled.Some? <==> r.dones > 0)
    && r.dones == (if r.resent then 1 else 0) + (if r.state == 2 then 1 else 0)
    && (r.state == 1 || r.resent ==> r.pc == Sent)
    && (r.pc == Returned ==> r.state == 2)
  }

  ghost predicate AllOk(rs: seq<Request>) {
    rs != [] ==> AllOk(rs[..|rs| - 1]) && RequestOk(rs[|rs| - 1])
  }

  lemma {:induction false} AllOkAt(rs: seq<Request>, i: nat)
    requires AllOk(rs) && i < |rs|
    ensures RequestOk(rs[i])
  {
    if i < |rs| - 1 { AllOkAt(rs[..|rs| - 1], i); }
  }

  lemma {:induction false} AllOkUpdate(rs: seq<Request>, i: nat, r: Request)
    requires AllOk(rs) && i < |rs| && RequestOk(r)
    ensures AllOk(rs[i := r])
  {
    var n := |rs| - 1;
    if i == n {
      assert rs[i := r][..n] == rs[..n];
    } else {
      assert rs[i := r][..n] == rs[..n][i := r];
      AllOkUpdate(rs[..n], i, r);
    }
  }

  /** Times counted in minus times counted out. */
  function Net(rs: seq<Request>): int {
    if rs == [] then 0
    else Net(rs[..|rs| - 1]) + (if rs[|rs| - 1].fireGlobals then 1 else 0) - rs[|rs| - 1].outs
  }

  /** The global requests counted in and not yet counted out. */
  function Open(rs: seq<Request>): nat {
    if rs == [] then 0
    else Open(rs[..|rs| - 1]) + (if rs[|rs| - 1].fireGlobals && rs[|rs| - 1].outs == 0 then 1 else 0)
  }

  lemma {:induction false} NetUpdate(rs: seq<Request>, i: nat, r: Request)
    requires i < |rs|
    ensures Net(rs[i := r]) == Net(rs) + ((if r.fireGlobals then 1 else 0) - r.outs)
                                       - ((if rs[i].fireGlobals then 1 else 0) - rs[i].outs)
  {
    var n := |rs| - 1;
    if i == n {
      assert rs[i := r][..n] == rs[..n];
    } else {
      assert rs[i := r][..n] == rs[..n][i := r];
      NetUpdate(rs[..n], i, r);
    }
  }

  /** The counter falls short of the open requests by the requests counted out more than once. */
  lemma {:induction false} NetMeaning(rs: seq<Request>)
    requires AllOk(rs)
    ensures Net(rs) <= Open(rs)
    ensures Net(rs) == Open(rs) <==> forall i :: 0 <= i < |rs| ==> rs[i].outs <= 1
  {
    if rs != [] {
      NetMeaning(rs[..|rs| - 1]);
    }
  }

  /** ajaxStart and ajaxStop alternate, beginning with a start; the last one is a start while the counter is
      positive. */
  ghost predicate Alternating(log: seq<GlobalEvent>, active: int) {
    && (forall i :: 0 <= i < |log| ==> log[i] == if i % 2 == 0 then AjaxStart else AjaxStop)
    && (active > 0 <==> |log| % 2 == 1)
  }

  /** One thing that happens to some request. */
  datatype Event =
    | Begins(wantsGlobal: bool, hasBeforeSend: bool)
    | Aborted(i: nat)
    | PrefiltersRan(i: nat)
    | BeforeSendRan(i: nat, cancel: bool)
    | Connected(i: nat, found: bool)
    | SendReached(i: nat, timeout: bool, throws: bool)
    | Completed(i: nat, success: bool)
    | TimedOut(i: nat)
    | DoneEnded(i: nat)

  /** What a request was settled with stays, and its counts do not go back. */
  predicate Grown(r: Request, r': Request) {
    && (r.settled.Some? ==> r'.settled == r.settled)
    && r.dones <= r'.dones && r.outs <= r'.outs
  }

  /** No request is lost, and each has grown. */
  ghost predicate Kept(before: seq<Request>, after: seq<Request>) {
    |before| <= |after| && forall i :: 0 <= i < |before| ==> Grown(before[i], after[i])
  }

  // ---- what a request is settled with ----

  /** What an event settles request i with, if it is not settled yet: a completed transport decides, anything else that
      ends the request is a failure, and events that do not end it do not settle it. */
  function Verdict(e: Event, i: nat, r: Request): Option<bool> {
    match e
    case Completed(j, success) => if j == i && r.pc == Sent then Some(success) else None
    case Aborted(j) => if j == i then Some(false) else None
    case TimedOut(j) => if j == i && r.timer then Some(false) else None
    case BeforeSendRan(j, cancel) =>
      if j == i && r.pc == BeforeSending && r.hasBeforeSend && cancel then Some(false) else None
    case Connected(j, found) => if j == i && r.pc == Connecting && !found then Some(false) else None
    case SendReached(j, _, throws) =>
      if j == i && r.pc == Sending && (!r.transport || throws) then Some(false) else None
    case Begins(_, _) => None
    case PrefiltersRan(_) => None
    case DoneEnded(_) => None
  }

  /** Every request not settled before takes the event's verdict, the others keep theirs, and a new one has none. */
  ghost predicate Settles(e: Event, before: seq<Request>, after: seq<Request>) {
    && |before| <= |after|
    && (forall i :: 0 <= i < |before| ==>
          after[i].settled == if before[i].settled.Some? then before[i].settled else Verdict(e, i, before[i]))
    && (forall i :: |before| <= i < |after| ==> after[i].settled.None?)
  }

  /** The requests before the first event and after each of them. */
  ghost predicate History(events: seq<Event>, history: seq<seq<Request>>) {
    && |history| == |events| + 1
    && forall k :: 0 <= k < |events| ==> Settles(events[k], history[k], history[k + 1])
  }

  /** Event k took place on request i, which was not settled, and settled it with v. */
  ghost predicate SettledAt(events: seq<Event>, history: seq<seq<Request>>, k: nat, i: nat, v: bool) {
    && k < |events| && k < |history| && i < |history[k]|
    && history[k][i].settled.None? && Verdict(events[k], i, history[k][i]) == Some(v)
  }

  /** Over any series of events a request comes to be settled with v exactly when some event settled it so, or it was
      settled so from the start. */
  lemma {:induction false} SettledByEvent(events: seq<Event>, history: seq<seq<Request>>, i: nat, v: bool)
    requires History(events, history) && i < |history[|events|]|
    ensures history[|events|][i].settled == Some(v) <==>
              (i < |history[0]| && history[0][i].settled == Some(v))
              || exists k: nat :: SettledAt(events, history, k, i, v)
    decreases |events|
  {
    if events != [] {
      var n := |events| - 1;
      var events', history' := events[..n], history[..n + 1];
      assert Settles(events[n], history[n], history[n + 1]);
      if i < |history[n]| {
        assert forall k :: 0 <= k < n ==> Settles(events'[k], history'[k], history'[k + 1]);
        SettledByEvent(events', history', i, v);
        assert forall k: nat :: SettledAt(events', history', k, i, v) ==> SettledAt(events, history, k, i, v);
        assert forall k: nat :: SettledAt(events, history, k, i, v) && k < n ==> SettledAt(events', history', k, i, v);
      } else {
        NotYet(events, history, i, v);
      }
      assert SettledAt(events, history, n, i, v) <==>
               i < |history[n]| && history[n][i].settled.None? && Verdict(events[n], i, history[n][i]) == Some(v);
    }
  }

  /** A request that the last event has begun was not there before. */
  lemma {:induction false} NotYet(events: seq<Event>, history: seq<seq<Request>>, i: nat, v: bool)
    requires History(events, history) && events != [] && |history[|events| - 1]| <= i
    ensures |history[0]| <= i && forall k: nat :: !SettledAt(events, history, k, i, v)
  {
    forall k | 0 <= k < |events| ensures |history[k]| <= i { LengthsGrow(events, history, k, |events| - 1); }
  }

  lemma {:induction false} LengthsGrow(events: seq<Event>, history: seq<seq<Request>>, a: nat, b: nat)
    requires History(events, history) && a <= b < |history|
    ensures |history[a]| <= |history[b]|
    decreases b - a
  {
    if a < b {
      assert Settles(events[a], history[a], history[a + 1]);
      LengthsGrow(events, history, a + 1, b);
    }
  }

  /** Each request ends settled with v exactly if it was so from the start or an event settled it so; and a success that
      is new was brought by a transport that completed successfully. */
  ghost predicate AllAccounted(events: seq<Event>, history: seq<seq<Request>>)
    requires |history| == |events| + 1
  {
    var before, after := history[0], history[|events|];
    && (forall i: nat, v :: i < |after| ==>
          (after[i].settled == Some(v) <==>
             (i < |before| && before[i].settled == Some(v)) || exists k: nat :: SettledAt(events, history, k, i, v)))
    && (forall i: nat :: i < |after| && after[i].settled == Some(true)
                         && !(i < |before| && before[i].settled == Some(true)) ==>
          exists k: nat :: SettledAt(events, history, k, i, true) && events[k] == Completed(i, true))
  }

  lemma AllSettledByEvents(events: seq<Event>, history: seq<seq<Request>>)
    requires History(events, history)
    ensures AllAccounted(events, history)
  {
    var before, after := history[0], history[|events|];
    forall i: nat, v | i < |after|
      ensures after[i].settled == Some(v) <==>
                (i < |before| && before[i].settled == Some(v)) || exists k: nat :: SettledAt(events, history, k, i, v)
    {
      SettledByEvent(events, history, i, v);
    }
    forall k: nat, i: nat | SettledAt(events, history, k, i, true) ensures events[k] == Completed(i, true) {
    }
  }

  lemma HistorySnoc(events: seq<Event>, history: seq<seq<Request>>, e: Event, after: seq<Request>)
    requires History(events, history) && Settles(e, history[|events|], after)
    ensures History(events + [e], history + [after])
  {
    var events', history' := events + [e], history + [after];
    forall k | 0 <= k < |events'| ensures Settles(events'[k], history'[k], history'[k + 1]) {
      if k < |events| { assert Settles(events[k], history[k], history[k + 1]); }
    }
  }

  class Ajax {
    var requests: seq<Request>
    var active: int
    var log: seq<GlobalEvent>

    ghost predicate Valid()
      reads this
    {
      && AllOk(requests)
      && active == Net(requests)
      && Alternating(log, active)
    }

    constructor ()
      ensures Valid() && requests == [] && active == 0 && log == []
    {
      requests, active, log := [], 0, [];
    }

    /** Nothing is left to do: every request has been done and every done has run to its end. */
    ghost predicate AllOver()
      reads this
    {
      forall i :: 0 <= i < |requests| ==> requests[i].state == 2 && requests[i].tails == 0
    }

    /** In every reachable state each request is settled exactly when it has been done, and the counter agrees with
        the open requests exactly when none was counted out twice. */
    lemma Accounting()
      requires Valid()
      ensures forall i :: 0 <= i < |requests| ==> (requests[i].state == 2 ==> requests[i].settled.Some?)
      ensures active <= Open(requests)
      ensures active == Open(requests) <==> forall i :: 0 <= i < |requests| ==> requests[i].outs <= 1
      ensures (forall i :: 0 <= i < |requests| ==> !requests[i].resent) ==> active == Open(requests)
    {
      NetMeaning(requests);
      forall i | 0 <= i < |requests| ensures RequestOk(requests[i]) { AllOkAt(requests, i); }
    }

    /** Once all is over, the counter is back at the number of open requests, zero, exactly when no request taking
        part in global events was sent after it had been aborted. */
    lemma BackToZero()
      requires Valid() && AllOver()
      ensures active == 0 <==> forall i :: 0 <= i < |requests| ==> !(requests[i].fireGlobals && requests[i].resent)
      ensures active <= 0
    {
      AllOverNet(requests);
    }

    method Replace(i: nat, r: Request)
      requires Valid() && i < |requests| && RequestOk(r)
      requires r.fireGlobals == requests[i].fireGlobals && r.outs == requests[i].outs && Grown(requests[i], r)
      modifies `requests
      ensures Valid() && requests == old(requests)[i := r] && Kept(old(requests), requests)
    {
      AllOkUpdate(requests, i, r);
      NetUpdate(requests, i, r);
      requests := requests[i := r];
    }

    /** jQuery.ajax is called: the prefilters run. */
    method Begin(wantsGlobal: bool, hasBeforeSend: bool) returns (i: nat)
      requires Valid()
      modifies `requests
      ensures Valid() && i == |old(requests)|
      ensures requests == old(requests) + [NewRequest(wantsGlobal, hasBeforeSend)]
    {
      i := |requests|;
      ghost var was := requests;
      requests := requests + [NewRequest(wantsGlobal, hasBeforeSend)];
      assert requests[..i] == was;
    }

    /** jqXHR.abort(), called by anyone who holds the jqXHR. */
    method Abort(i: nat)
      requires Valid() && i < |requests|
      modifies `requests
      ensures Kept(old(requests), requests)
      ensures Valid() && requests == old(requests)[i := Finish(old(requests)[i], false)]
      ensures requests[i].state == 2
      ensures old(requests)[i].settled.None? ==> requests[i].settled == Some(false)
    {
      AllOkAt(requests, i);
      Replace(i, Finish(requests[i], false));
    }

    /** After the prefilters: stop if they aborted, else take part in the global events. */
    method AfterPrefilters(i: nat)
      requires Valid() && i < |requests| && requests[i].pc == Prefilters
      modifies this
      ensures Valid()
      ensures var r := old(requests)[i];
              var counted := r.state != 2 && r.wantsGlobal;
              && requests == old(requests)[i := if r.state == 2 then r.(pc := Returned)
                                                else r.(pc := BeforeSending, fireGlobals := r.wantsGlobal)]
              && active == old(active) + (if counted then 1 else 0)
              && log == old(log) + (if counted && old(active) == 0 then [AjaxStart] else [])
    {
      var r := requests[i];
      AllOkAt(requests, i);
      if r.state == 2 {
        Replace(i, r.(pc := Returned));
        return;
      }
      r := r.(pc := BeforeSending, fireGlobals := r.wantsGlobal);
      AllOkUpdate(requests, i, r);
      NetUpdate(requests, i, r);
      requests := requests[i := r];
      if r.fireGlobals {
        active := active + 1;
        if active - 1 == 0 {
          log := log + [AjaxStart];
        }
      }
    }

    /** beforeSend has returned (cancel if it returned false), or there is none. */
    method AfterBeforeSend(i: nat, cancel: bool)
      requires Valid() && i < |requests| && requests[i].pc == BeforeSending
      modifies `requests
      ensures Kept(old(requests), requests)
      ensures Valid()
      ensures requests == old(requests)[i := Sendable(old(requests)[i], cancel)]
      ensures var r := old(requests)[i];
              if r.hasBeforeSend && (cancel || r.state == 2)
              then requests[i].state == 2 && requests[i].pc == Returned
                   && (r.settled.None? ==> requests[i].settled == Some(false))
              else requests[i] == r.(pc := Connecting)
    {
      AllOkAt(requests, i);
      Replace(i, Sendable(requests[i], cancel));
    }

    /** The transport is looked up; without one the request is done at once. */
    method Connect(i: nat, found: bool)
      requires Valid() && i < |requests| && requests[i].pc == Connecting
      modifies `requests
      ensures Kept(old(requests), requests)
      ensures Valid()
      ensures var r := old(requests)[i];
              requests == old(requests)[i := if found then r.(pc := Sending, transport := true)
                                             else Finish(r, false).(pc := Returned)]
      ensures !found ==> requests[i].state == 2
      ensures !found && old(requests)[i].settled.None? ==> requests[i].settled == Some(false)
    {
      var r := requests[i];
      AllOkAt(requests, i);
      if found {
        Replace(i, r.(pc := Sending, transport := true));
      } else {
        Replace(i, Finish(r, false).(pc := Returned));
      }
    }

    /** After ajaxSend: set the timer, make state 1 whatever it was, and send. Sending fails if the transport is gone
        or throws, and a failure is done with. */
    method Send(i: nat, timeout: bool, throws: bool)
      requires Valid() && i < |requests| && requests[i].pc == Sending
      modifies `requests
      ensures Kept(old(requests), requests)
      ensures Valid()
      ensures var r := old(requests)[i];
              var sent := r.(pc := Sent, timer := timeout, state := 1, resent := r.state == 2);
              requests == old(requests)[i := if !r.transport || throws then Finish(sent, false) else sent]
      ensures var r := old(requests)[i];
              if !r.transport || throws
              then requests[i].state == 2 && (r.settled.None? ==> requests[i].settled == Some(false))
              else requests[i].state == 1 && requests[i].settled == r.settled
    {
      var r := requests[i];
      AllOkAt(requests, i);
      var sent := r.(pc := Sent, timer := timeout, state := 1, resent := r.state == 2);
      Replace(i, if !r.transport || throws then Finish(sent, false) else sent);
    }

    /** The transport reports back. */
    method Complete(i: nat, success: bool)
      requires Valid() && i < |requests| && requests[i].pc == Sent
      modifies `requests
      ensures Kept(old(requests), requests)
      ensures Valid() && requests == old(requests)[i := Finish(old(requests)[i], success)]
      ensures requests[i].state == 2
      ensures old(requests)[i].settled.None? ==> requests[i].settled == Some(success)
    {
      AllOkAt(requests, i);
      Replace(i, Finish(requests[i], success));
    }

    /** The timer goes off. */
    method Timeout(i: nat)
      requires Valid() && i < |requests| && requests[i].timer
      modifies `requests
      ensures Kept(old(requests), requests)
      ensures Valid() && requests == old(requests)[i := Finish(old(requests)[i].(timer := false), false)]
      ensures requests[i].state == 2
      ensures old(requests)[i].settled.None? ==> requests[i].settled == Some(false)
    {
      AllOkAt(requests, i);
      Replace(i, Finish(requests[i].(timer := false), false));
    }

    /** The end of a done: the counter, and ajaxStop when it reaches zero. */
    method EndOfDone(i: nat)
      requires Valid() && i < |requests| && requests[i].tails > 0
      modifies this
      ensures Valid()
      ensures var r := old(requests)[i];
              && requests == old(requests)[i := r.(tails := r.tails - 1,
                                                   outs := r.outs + if r.fireGlobals then 1 else 0)]
              && active == old(active) - (if r.fireGlobals then 1 else 0)
              && log == old(log) + (if r.fireGlobals && active == 0 then [AjaxStop] else [])
    {
      var r := requests[i];
      AllOkAt(requests, i);
      r := r.(tails := r.tails - 1, outs := r.outs + if r.fireGlobals then 1 else 0);
      AllOkUpdate(requests, i, r);
      NetUpdate(requests, i, r);
      requests := requests[i := r];
      if r.fireGlobals {
        active := active - 1;
        if active == 0 {
          log := log + [AjaxStop];
        }
      }
    }

    /** An event takes place if the request's state allows it. */
    method Happen(e: Event)
      requires Valid()
      modifies this
      ensures Valid() && Kept(old(requests), requests) && old(log) <= log
      ensures Settles(e, old(requests), requests)
    {
      if e.Begins? {
        var i := Begin(e.wantsGlobal, e.hasBeforeSend);
      } else if FromOutside(e) {
        Ending(e);
      } else {
        Proceeding(e);
      }
    }

    /** The steps of the request's own program. */
    method Proceeding(e: Event)
      requires Valid() && !e.Begins? && !FromOutside(e)
      modifies this
      ensures Valid() && Kept(old(requests), requests) && old(log) <= log
      ensures Settles(e, old(requests), requests)
    {
      ghost var before := requests;
      match e {
        case PrefiltersRan(i) => if i < |requests| && requests[i].pc == Prefilters { AfterPrefilters(i); }
        case BeforeSendRan(i, c) => if i < |requests| && requests[i].pc == BeforeSending { AfterBeforeSend(i, c); }
        case Connected(i, f) => if i < |requests| && requests[i].pc == Connecting { Connect(i, f); }
        case SendReached(i, t, x) => if i < |requests| && requests[i].pc == Sending { Send(i, t, x); }
      }
      KeptSettled(e, before, requests);
    }

    /** The events that come from outside the request's own program, and the end of a done. */
    method Ending(e: Event)
      requires Valid() && FromOutside(e)
      modifies this
      ensures Valid() && Kept(old(requests), requests) && old(log) <= log
      ensures Settles(e, old(requests), requests)
    {
      ghost var before := requests;
      match e {
        case Aborted(i) => if i < |requests| { Abort(i); }
        case Completed(i, s) => if i < |requests| && requests[i].pc == Sent { Complete(i, s); }
        case TimedOut(i) => if i < |requests| && requests[i].timer { Timeout(i); }
        case DoneEnded(i) => if i < |requests| && requests[i].tails > 0 { EndOfDone(i); }
      }
      KeptSettled(e, before, requests);
    }

    /** Any interleaving of any number of requests: what Valid says holds throughout, no request is settled twice, and
        the global events already sent stay as they are. */
    method Play(events: seq<Event>) returns (ghost history: seq<seq<Request>>)
      requires Valid()
      modifies this
      ensures Valid() && Kept(old(requests), requests) && old(log) <= log
      ensures History(events, history) && history[0] == old(requests) && history[|events|] == requests
      ensures AllAccounted(events, history)
    {
      var k := 0;
      history := [requests];
      while k < |events|
        invariant 0 <= k <= |events|
        invariant Valid() && Kept(old(requests), requests) && old(log) <= log
        invariant |history| == k + 1 && history[0] == old(requests) && history[k] == requests
        invariant History(events[..k], history)
      {
        ghost var before := requests;
        Happen(events[k]);
        HistorySnoc(events[..k], history, events[k], requests);
        assert events[..k] + [events[k]] == events[..k + 1];
        history := history + [requests];
        KeptTrans(old(requests), before, requests);
        k := k + 1;
      }
      assert events[..k] == events;
      AllSettledByEvents(events, history);
    }

    /** A handler of ajaxSend aborts the request it is told about: the request is done twice and counted out twice. */
    method AbortInAjaxSend()
      requires Valid() && requests == [] && active == 0
      modifies this
      ensures Valid() && active == -1 && |requests| == 1 && requests[0].dones == 2 && requests[0].resent
    {
      UpToAjaxSend();
      Abort(0);
      EndOfDone(0);
      Send(0, false, false);
      EndOfDone(0);
    }

    /** A request with global events and no beforeSend, as ajaxSend is about to be triggered. */
    method UpToAjaxSend()
      requires Valid() && requests == [] && active == 0
      modifies this
      ensures Valid() && active == 1 && |requests| == 1
      ensures var r := requests[0];
              r.pc == Sending && r.state == 0 && r.fireGlobals && r.transport && r.dones == 0 && r.tails == 0
    {
      var i := Begin(true, false);
      AfterPrefilters(0);
      AfterBeforeSend(0, false);
      Connect(0, true);
    }
  }

  predicate FromOutside(e: Event) {
    e.Aborted? || e.Completed? || e.TimedOut? || e.DoneEnded?
  }

  lemma KeptSettled(e: Event, before: seq<Request>, after: seq<Request>)
    requires !e.Begins? && |after| == |before|
    requires e.i < |before| ==> after == before[e.i := after[e.i]] && Grown(before[e.i], after[e.i])
    requires e.i >= |before| ==> after == before
    requires e.i < |before| && before[e.i].settled.None? ==> after[e.i].settled == Verdict(e, e.i, before[e.i])
    ensures Kept(before, after) && Settles(e, before, after)
  {
  }

  lemma KeptTrans(a: seq<Request>, b: seq<Request>, c: seq<Request>)
    requires Kept(a, b) && Kept(b, c)
    ensures Kept(a, c)
  {
  }

  lemma {:induction false} AllOverNet(rs: seq<Request>)
    requires AllOk(rs) && forall i :: 0 <= i < |rs| ==> rs[i].state == 2 && rs[i].tails == 0
    ensures Net(rs) <= 0
    ensures Net(rs) == 0 <==> forall i :: 0 <= i < |rs| ==> !(rs[i].fireGlobals && rs[i].resent)
  {
    if rs != [] {
      AllOverNet(rs[..|rs| - 1]);
    }
  }
}
