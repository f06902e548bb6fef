/** Requests that the code drops without an answer: the inputs, and exactly when it happens. */
module ClockTreeLosses {
  import opened FwkStatus
  import opened ClockTree
  import opened ClockTreeInvariant
  import opened ClockTreeSteps
  import opened ClockTreeStops
  import opened ClockTreeRequests
  import opened ClockTreeCalls
  import opened ClockTreeFlights
  import opened ClockTreeTheorems

  /** The call and its request event: what is left is the pre-request, processed at the requested clock. */
  lemma LastEvent(f: Forest, drv: Driver, s: State, requester: Entity, a: nat, state: nat, n: nat) returns (t: State)
    requires WellFormed(f, s) && s.queue == [] && a < |f| && !IsSingleNode(f, a) && n >= 2
    requires !s.dev[a].ongoing && s.dev[a].stage.Idle? && s.dev[a].delayed == []
    ensures WellFormed(f, t) && t.queue == [] && t.log == s.log && t.replies == s.replies
    ensures t.dev == s.dev[a := s.dev[a].(ongoing := true, initiator := true, cookie := s.nextCookie,
                                          delayed := [Delayed(s.nextCookie, requester)])]
    ensures Drain(f, drv, SetStateCall(f, drv, s, requester, a, state).0, n) ==
      Drain(f, drv, ProcessState(f, drv, t, requester, a, state, SUCCESS), n - 2)
  {
    var t1 := CallDrains(f, drv, s, requester, a, state, n);
    assert t1.queue[1..] == [];
    t := t1.(queue := []);
    DrainUnfold(f, drv, t1, ProcessState(f, drv, t, requester, a, state, SUCCESS), n - 1);
  }

  /**
    A target state other than RUNNING and STOPPED, with a query that is not refused, is dropped without an answer: the
    clock stays busy.
  */
  lemma InvalidStateWedges(f: Forest, drv: Driver, s: State, hold: seq<nat>, requester: Entity, a: nat, state: nat,
      n: nat) returns (r: State)
    requires Quiescent(f, s, hold) && a < |f| && !IsSingleNode(f, a) && state != RUNNING && state != STOPPED
    requires drv(|s.log|, GetState(a, state)) == SUCCESS || drv(|s.log|, GetState(a, state)) == PENDING
    requires n >= 2
    ensures r == Drain(f, drv, SetStateCall(f, drv, s, requester, a, state).0, n)
    ensures r.queue == [] && r.replies == s.replies && Busy(f, drv, r, a) && |s.log| <= |r.log|
  {
    var t := LastEvent(f, drv, s, requester, a, state, n);
    r := ProcessState(f, drv, t, requester, a, state, SUCCESS);
    DrainDone(f, drv, r, n - 2);
  }

  /** Answered by the requested clock itself: its response and then the reply are the last two events. */
  lemma AnswerDrains(f: Forest, drv: Driver, s: State, requester: Entity, a: nat, status: int, state: nat, n: nat)
      returns (r: State)
    requires WellFormed(f, s) && a < |f| && s.queue == [Response(a, status, state)] && n >= 2
    requires s.dev[a].delayed == [Delayed(s.dev[a].cookie, requester)]
    ensures r == Drain(f, drv, s, n) && r.queue == [] && r.log == s.log
    ensures r.replies == s.replies + [Reply(requester, a, status, state)]
    ensures r.dev == s.dev[a := s.dev[a].(ongoing := false, delayed := [])]
  {
    var x := s.dev[a];
    assert s.queue[1..] == [] && FindDelayed(x.delayed, x.cookie) == 0 && x.delayed[..0] + x.delayed[1..] == [];
    var u := Step(f, drv, s);
    DrainUnfold(f, drv, s, u, n);
    assert u.queue == [Reply(requester, a, status, state)] && u.queue[1..] == [];
    r := Step(f, drv, u);
    DrainUnfold(f, drv, u, r, n - 1);
    DrainDone(f, drv, r, n - 2);
  }

  /** A target state other than RUNNING and STOPPED is answered with the status of a query that fails. */
  lemma InvalidStateAnswered(f: Forest, drv: Driver, s: State, hold: seq<nat>, requester: Entity, a: nat, state: nat,
      n: nat) returns (r: State)
    requires Quiescent(f, s, hold) && a < |f| && !IsSingleNode(f, a) && state != RUNNING && state != STOPPED
    requires drv(|s.log|, GetState(a, state)) != SUCCESS && drv(|s.log|, GetState(a, state)) != PENDING
    requires n >= 4
    ensures r == Drain(f, drv, SetStateCall(f, drv, s, requester, a, state).0, n)
    ensures r.replies == s.replies + [Reply(requester, a, drv(|s.log|, GetState(a, state)), state)]
    ensures Quiescent(f, r, hold) && |s.log| <= |r.log|
  {
    var t := LastEvent(f, drv, s, requester, a, state, n);
    var u := ProcessState(f, drv, t, requester, a, state, SUCCESS);
    var status := drv(|s.log|, GetState(a, state));
    assert u.queue == [Response(a, status, state)];
    r := AnswerDrains(f, drv, u, requester, a, status, state, n - 2);
    CountsKept(f, s.dev, r.dev, hold);
  }

  /**
    A tree request is answered exactly when it asks for RUNNING or STOPPED and is not dropped, or asks for another state
    and the first query fails.
  */
  lemma AnsweredExactlyForValidStates(f: Forest, d: seq<nat>, drv: Driver, s: State, hold: seq<nat>,
      requester: Entity, a: nat, state: nat, n: nat) returns (r: State)
    requires Depths(f, d) && Quiescent(f, s, hold) && a < |f| && n >= 3 * d[a] + 4
    requires Fits(f, hold) && (state == STOPPED ==> hold[a] > 0) && !IsSingleNode(f, a)
    ensures r == Drain(f, drv, SetStateCall(f, drv, s, requester, a, state).0, n) && |s.log| <= |r.log|
    ensures |r.replies| == |s.replies| + 1 <==>
      if state == RUNNING then !StartDropped(f, d, drv, s, a)
      else if state == STOPPED then !StopDropped(drv, s, a)
      else drv(|s.log|, GetState(a, state)) != SUCCESS && drv(|s.log|, GetState(a, state)) != PENDING
  {
    hide Drain, SetStateCall;
    var query := drv(|s.log|, GetState(a, state));
    if state == RUNNING || state == STOPPED {
      r := SetStateAnswered(f, d, drv, s, hold, requester, a, state, n);
    } else if query == SUCCESS || query == PENDING {
      r := InvalidStateWedges(f, drv, s, hold, requester, a, state, n);
    } else {
      r := InvalidStateAnswered(f, drv, s, hold, requester, a, state, n);
    }
  }

  /**
    A stopped root whose driver answers a start with E_SUPPORT, as the drivers of clocks with a fixed source do: the
    request to run is never answered, and the clock stays busy.
  */
  lemma UnsupportedStartWedges(f: Forest, drv: Driver, s: State, hold: seq<nat>, requester: Entity, a: nat, n: nat)
      returns (r: State)
    requires Quiescent(f, s, hold) && a < |f| && !IsSingleNode(f, a) && f[a].None? && !s.dev[a].running && n >= 2
    requires drv(|s.log|, GetState(a, RUNNING)) == SUCCESS
    requires drv(|s.log| + 1, SetState(a, RUNNING)) == E_SUPPORT
    ensures r == Drain(f, drv, SetStateCall(f, drv, s, requester, a, RUNNING).0, n)
    ensures r.queue == [] && r.replies == s.replies && Busy(f, drv, r, a)
  {
    var t := LastEvent(f, drv, s, requester, a, RUNNING, n);
    r := ProcessState(f, drv, t, requester, a, RUNNING, SUCCESS);
    DrainDone(f, drv, r, n - 2);
  }

  /** The last reference given back to a driver that answers E_SUPPORT: no answer, and a busy clock that still runs. */
  lemma UnsupportedStopWedges(f: Forest, drv: Driver, s: State, hold: seq<nat>, requester: Entity, a: nat, n: nat)
      returns (r: State)
    requires Quiescent(f, s, hold) && a < |f| && !IsSingleNode(f, a) && s.dev[a].refCount == 1 && n >= 2
    requires drv(|s.log|, GetState(a, STOPPED)) == SUCCESS
    requires drv(|s.log| + 1, SetState(a, STOPPED)) == E_SUPPORT
    ensures r == Drain(f, drv, SetStateCall(f, drv, s, requester, a, STOPPED).0, n)
    ensures r.queue == [] && r.replies == s.replies && Busy(f, drv, r, a)
    ensures r.dev[a].running && r.dev[a].refCount == 0
  {
    var t := LastEvent(f, drv, s, requester, a, STOPPED, n);
    r := ProcessState(f, drv, t, requester, a, STOPPED, SUCCESS);
    DrainDone(f, drv, r, n - 2);
  }
}
