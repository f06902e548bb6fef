/** Sequences of requests, served one after the other, under any driver. */
module ClockTreeRuns {
  import opened FwkStatus
  import opened ClockTree
  import opened ClockTreeInvariant
  import opened ClockTreeRefusals
  import opened ClockTreeRequests
  import opened ClockTreeCalls
  import opened ClockTreeFlights
  import opened ClockTreeTheorems

  datatype SetReq = SetReq(requester: Entity, clock: nat, state: nat)

  function ReplyTo(req: SetReq, status: int): Event {
    Reply(req.requester, req.clock, status, req.state)
  }

  /** One request served to its end. On a single node the driver is called directly and no event is queued. */
  ghost function ServeOne(f: Forest, d: seq<nat>, drv: Driver, s: State, req: SetReq): State {
    if WellFormed(f, s) && |d| == |f| && req.clock < |f| then
      Drain(f, drv, SetStateCall(f, drv, s, req.requester, req.clock, req.state).0, 3 * d[req.clock] + 4)
    else s
  }

  /** Requests served one after the other, the queue drained in between. */
  ghost function ServeAll(f: Forest, d: seq<nat>, drv: Driver, s: State, reqs: seq<SetReq>): State {
    if reqs == [] then s
    else ServeOne(f, d, drv, ServeAll(f, d, drv, s, reqs[..|reqs| - 1]), reqs[|reqs| - 1])
  }

  /** Starts answered with success minus stops answered with success: the holds requesters have on a clock. */
  ghost function Outstanding(replies: seq<Event>, c: nat): int {
    if replies == [] then 0
    else
      var e := replies[|replies| - 1];
      Outstanding(replies[..|replies| - 1], c) +
      if e.Reply? && e.clock == c && e.status == SUCCESS then
        if e.state == RUNNING then 1 else if e.state == STOPPED then -1 else 0
      else 0
  }

  /** A requester asks for RUNNING, or gives back a hold it was granted. */
  ghost predicate MayAsk(f: Forest, t: State, req: SetReq)
    requires req.clock < |f|
  {
    || req.state == RUNNING
    || (req.state == STOPPED && (!IsSingleNode(f, req.clock) ==> Outstanding(t.replies, req.clock) > 0))
  }

  /** Requesters keep the rules, as the responses to the requests before show them. */
  ghost predicate Permitted(f: Forest, d: seq<nat>, drv: Driver, s: State, reqs: seq<SetReq>) {
    && (forall i :: 0 <= i < |reqs| ==> reqs[i].clock < |f|)
    && forall i :: 0 <= i < |reqs| ==> MayAsk(f, ServeAll(f, d, drv, s, reqs[..i]), reqs[i])
  }

  /** The requests on clocks of trees, as their responses show them. */
  ghost function TreeRequests(f: Forest, reqs: seq<SetReq>): seq<SetReq>
    requires forall i :: 0 <= i < |reqs| ==> reqs[i].clock < |f|
  {
    if reqs == [] then []
    else
      var last := reqs[|reqs| - 1];
      TreeRequests(f, reqs[..|reqs| - 1]) + if IsSingleNode(f, last.clock) then [] else [last]
  }

  ghost predicate Matches(replies: seq<Event>, reqs: seq<SetReq>) {
    |replies| == |reqs| && forall i :: 0 <= i < |replies| ==>
      replies[i].Reply? && SetReq(replies[i].requester, replies[i].clock, replies[i].state) == reqs[i]
  }

  /** What holds between the requests of a run. */
  ghost predicate Settled(f: Forest, s: State, hold: seq<nat>) {
    Quiescent(f, s, hold) && forall c :: 0 <= c < |f| ==> hold[c] == Outstanding(s.replies, c)
  }

  lemma OutstandingAppend(replies: seq<Event>, e: Event, c: nat)
    ensures Outstanding(replies + [e], c) == Outstanding(replies, c) +
      if e.Reply? && e.clock == c && e.status == SUCCESS then
        if e.state == RUNNING then 1 else if e.state == STOPPED then -1 else 0
      else 0
  {
    assert (replies + [e])[..|replies|] == replies;
  }

  lemma OutstandingBound(replies: seq<Event>, c: nat)
    ensures Outstanding(replies, c) <= |replies|
  {
    if replies == [] {
    } else {
      OutstandingBound(replies[..|replies| - 1], c);
    }
  }

  lemma HoldsFollowReplies(hold: seq<nat>, replies: seq<Event>, requester: Entity, a: nat, state: nat, status: int)
      returns (hold': seq<nat>)
    requires a < |hold| && (state == STOPPED || state == RUNNING)
    requires state == STOPPED ==> hold[a] > 0
    requires forall c :: 0 <= c < |hold| ==> hold[c] == Outstanding(replies, c)
    ensures hold' == HoldAfter(hold, a, state, status)
    ensures forall c :: 0 <= c < |hold| ==> hold'[c] == Outstanding(replies + [Reply(requester, a, status, state)], c)
  {
    hold' := HoldAfter(hold, a, state, status);
    forall c: nat | c < |hold|
      ensures hold'[c] == Outstanding(replies + [Reply(requester, a, status, state)], c)
    {
      OutstandingAppend(replies, Reply(requester, a, status, state), c);
    }
  }

  /** A request on a clock of a tree is answered and leaves everything settled exactly when it concludes. */
  lemma ServeTree(f: Forest, d: seq<nat>, drv: Driver, s: State, hold: seq<nat>, req: SetReq)
      returns (r: State, status: int)
    requires Depths(f, d) && Settled(f, s, hold)
    requires MayRequest(f, hold, req.clock, req.state) && !IsSingleNode(f, req.clock)
    ensures r == ServeOne(f, d, drv, s, req) && r.log == LogOf(f, d, drv, s, req.clock, req.state)
    ensures r.replies == s.replies || r.replies == s.replies + [ReplyTo(req, status)]
    ensures Concludes(r.log, |s.log|, req.state) <==>
      r.replies == s.replies + [ReplyTo(req, status)] && exists hold' :: Settled(f, r, hold')
  {
    hide Drain, SetStateCall, Concludes, LogOf, LogAfter, CallsClimb, RefusalsReach, RefusedAt, Counts;
    var run;
    r, run := RequestDrain(f, d, drv, s, hold, req.requester, req.clock, req.state, 3 * d[req.clock] + 4);
    status := Answered(drv, s, r.log, run);
    TreeSettled(f, d, drv, s, r, hold, run, req, status);
  }

  lemma TreeSettled(f: Forest, d: seq<nat>, drv: Driver, s: State, r: State, hold: seq<nat>, run: Run, req: SetReq,
      status: int)
    requires Made(f, d, s, hold, run) && Within(run.chain, s.dev) && Outcome(f, drv, s, r, hold, run)
    requires Settled(f, s, hold)
    requires run.requester == req.requester && run.chain[0] == req.clock && run.target == req.state
    requires status == Answered(drv, s, r.log, run)
    ensures r.replies == s.replies || r.replies == s.replies + [ReplyTo(req, status)]
    ensures Concludes(r.log, |s.log|, req.state) <==>
      r.replies == s.replies + [ReplyTo(req, status)] && exists hold' :: Settled(f, r, hold')
  {
    hide LogAfter, CallsClimb, RefusalsReach, RefusedAt, TreeSafe, Orphan;
    var holds := HoldsFollowReplies(hold, s.replies, req.requester, req.clock, req.state, status);
    if Concludes(r.log, |s.log|, req.state) {
      assert Settled(f, r, holds);
    }
    if r.replies == s.replies + [ReplyTo(req, status)] && exists hold' :: Settled(f, r, hold') {
      var hold' :| Settled(f, r, hold');
      assert |r.replies| != |s.replies|;
      assert hold' == holds;
    }
  }

  /** On a single node the driver is called once, and nothing else changes unless it is still to complete. */
  lemma SingleForm(f: Forest, drv: Driver, s: State, req: SetReq, n: nat) returns (r: State, status: int)
    requires WellFormed(f, s) && s.queue == [] && req.clock < |f| && IsSingleNode(f, req.clock) && n > 0
    requires !s.dev[req.clock].ongoing && s.dev[req.clock].stage.Idle?
    ensures r == Drain(f, drv, SetStateCall(f, drv, s, req.requester, req.clock, req.state).0, n)
    ensures SetStateCall(f, drv, s, req.requester, req.clock, req.state).1 == status
    ensures status == drv(|s.log|, SetState(req.clock, req.state))
    ensures r.log == s.log + [Record(SetState(req.clock, req.state), status)]
    ensures r.queue == [] && r.replies == s.replies && |r.dev| == |s.dev|
    ensures status == PENDING ==> r.dev[req.clock].ongoing
    ensures status != PENDING ==>
      && (forall c :: 0 <= c < |f| && c != req.clock ==> r.dev[c] == s.dev[c])
      && r.dev[req.clock] == s.dev[req.clock].(running :=
           if status == SUCCESS then req.state == RUNNING else s.dev[req.clock].running)
  {
    status := Answer(drv, s, SetState(req.clock, req.state));
    r := AfterCall(drv, s, SetState(req.clock, req.state));
    if status == PENDING {
      var s1 := CreateAsyncRequest(r, req.requester, req.clock);
      var t := Step(f, drv, s1);
      assert s1.queue == [Request(req.requester, req.clock, s.nextCookie)] && s1.queue[1..] == [];
      DrainUnfold(f, drv, s1, t, n);
      r := t;
    }
  }

  lemma SingleCounts(f: Forest, dev: seq<Dev>, dev': seq<Dev>, hold: seq<nat>, a: nat)
    requires Counts(f, dev, hold) && a < |f| && IsSingleNode(f, a) && |dev'| == |dev|
    requires forall c :: 0 <= c < |f| ==>
      dev'[c].refCount == dev[c].refCount && (c != a ==> dev'[c].running == dev[c].running)
    ensures Counts(f, dev', hold)
  {
    forall p | 0 <= p < |f|
      ensures RunningKids(f, dev, p) == RunningKids(f, dev', p)
    {
    }
  }

  lemma ServeSingle(f: Forest, d: seq<nat>, drv: Driver, s: State, hold: seq<nat>, req: SetReq)
      returns (r: State, status: int)
    requires |d| == |f| && Settled(f, s, hold) && req.clock < |f| && IsSingleNode(f, req.clock)
    ensures r == ServeOne(f, d, drv, s, req) && r.replies == s.replies
    ensures status == drv(|s.log|, SetState(req.clock, req.state))
    ensures r.log == s.log + [Record(SetState(req.clock, req.state), status)]
    ensures status != PENDING ==> Settled(f, r, hold)
    ensures status == PENDING ==> req.clock < |r.dev| && r.dev[req.clock].ongoing
  {
    r, status := SingleForm(f, drv, s, req, 3 * d[req.clock] + 4);
    if status != PENDING {
      SingleCounts(f, s.dev, r.dev, hold, req.clock);
    }
  }

  lemma PermittedPrefix(f: Forest, d: seq<nat>, drv: Driver, s: State, reqs: seq<SetReq>, n: nat)
    requires n <= |reqs| && Permitted(f, d, drv, s, reqs)
    ensures Permitted(f, d, drv, s, reqs[..n])
  {
    forall i | 0 <= i < n
      ensures reqs[..n][..i] == reqs[..i]
    {
    }
  }

  lemma TreeRequestsBound(f: Forest, reqs: seq<SetReq>)
    requires forall i :: 0 <= i < |reqs| ==> reqs[i].clock < |f|
    ensures |TreeRequests(f, reqs)| <= |reqs|
  {
    if reqs == [] {
    } else {
      TreeRequestsBound(f, reqs[..|reqs| - 1]);
    }
  }

  /** As can be told in state `t`, the request concludes, or the driver of a single node does not leave it pending. */
  ghost predicate WillConclude(f: Forest, d: seq<nat>, drv: Driver, t: State, req: SetReq) {
    && Depths(f, d) && WellFormed(f, t) && req.clock < |f|
    && if IsSingleNode(f, req.clock) then drv(|t.log|, SetState(req.clock, req.state)) != PENDING
       else Concludes(LogOf(f, d, drv, t, req.clock, req.state), |t.log|, req.state)
  }

  /** Every request of the run concludes, as can be told each time before it is made. */
  ghost predicate RunConcludes(f: Forest, d: seq<nat>, drv: Driver, s: State, reqs: seq<SetReq>)
    requires forall i :: 0 <= i < |reqs| ==> reqs[i].clock < |f|
    decreases |reqs|
  {
    reqs == [] ||
    var before := reqs[..|reqs| - 1];
    RunConcludes(f, d, drv, s, before) &&
    WillConclude(f, d, drv, ServeAll(f, d, drv, s, before), reqs[|reqs| - 1])
  }

  /**
    Every tree request has exactly one response, in order; no clock is busy; every reference count is the outstanding
    holds on the clock plus its running children, and a clock of a tree runs exactly when its count is positive.
  */
  ghost predicate AllServed(f: Forest, r: State, reqs: seq<SetReq>)
    requires forall i :: 0 <= i < |reqs| ==> reqs[i].clock < |f|
  {
    (exists hold :: Settled(f, r, hold)) && Matches(r.replies, TreeRequests(f, reqs))
  }

  /** All is served after every request of the run. */
  ghost predicate RunServed(f: Forest, d: seq<nat>, drv: Driver, s: State, reqs: seq<SetReq>)
    requires forall i :: 0 <= i < |reqs| ==> reqs[i].clock < |f|
    decreases |reqs|
  {
    && AllServed(f, ServeAll(f, d, drv, s, reqs), reqs)
    && (reqs != [] ==> RunServed(f, d, drv, s, reqs[..|reqs| - 1]))
  }

  /**
    Any run of permitted requests from a settled tree, under any driver: everything is served after every request
    exactly when every request concludes.
  */
  lemma {:induction false} WholeRun(f: Forest, d: seq<nat>, drv: Driver, s: State, hold: seq<nat>, reqs: seq<SetReq>)
    requires Depths(f, d) && Settled(f, s, hold) && s.replies == []
    requires Permitted(f, d, drv, s, reqs) && |reqs| + |f| + 4 < TWO32
    ensures RunServed(f, d, drv, s, reqs) <==> RunConcludes(f, d, drv, s, reqs)
    decreases |reqs|
  {
    if reqs == [] {
      assert Settled(f, ServeAll(f, d, drv, s, reqs), hold);
    } else {
      var n := |reqs| - 1;
      PermittedPrefix(f, d, drv, s, reqs, n);
      WholeRun(f, d, drv, s, hold, reqs[..n]);
      if RunServed(f, d, drv, s, reqs[..n]) {
        LastServed(f, d, drv, s, reqs);
      }
    }
  }

  /** The last request of a run in which all was served before it. */
  lemma LastServed(f: Forest, d: seq<nat>, drv: Driver, s: State, reqs: seq<SetReq>)
    requires Depths(f, d) && |reqs| + |f| + 4 < TWO32
    requires reqs != [] && forall i :: 0 <= i < |reqs| ==> reqs[i].clock < |f|
    requires var n := |reqs| - 1;
      var t := ServeAll(f, d, drv, s, reqs[..n]);
      AllServed(f, t, reqs[..n]) && MayAsk(f, t, reqs[n])
    ensures AllServed(f, ServeAll(f, d, drv, s, reqs), reqs) <==>
      WillConclude(f, d, drv, ServeAll(f, d, drv, s, reqs[..|reqs| - 1]), reqs[|reqs| - 1])
  {
    hide ServeOne, WillConclude, AllServed;
    var n, req := |reqs| - 1, reqs[|reqs| - 1];
    var t := ServeAll(f, d, drv, s, reqs[..n]);
    assert reqs[..n] + [req] == reqs;
    OneServed(f, d, drv, t, reqs[..n], req);
  }

  lemma OneServed(f: Forest, d: seq<nat>, drv: Driver, t: State, reqs: seq<SetReq>, req: SetReq)
    requires Depths(f, d) && |reqs| + 1 + |f| + 4 < TWO32 && req.clock < |f| && MayAsk(f, t, req)
    requires (forall i :: 0 <= i < |reqs| ==> reqs[i].clock < |f|) && AllServed(f, t, reqs)
    ensures forall i :: 0 <= i < |reqs + [req]| ==> (reqs + [req])[i].clock < |f|
    ensures AllServed(f, ServeOne(f, d, drv, t, req), reqs + [req]) <==> WillConclude(f, d, drv, t, req)
  {
    if IsSingleNode(f, req.clock) {
      SingleServed(f, d, drv, t, reqs, req);
    } else {
      TreeServed(f, d, drv, t, reqs, req);
    }
  }

  lemma TreeRequestsNext(f: Forest, reqs: seq<SetReq>, req: SetReq)
    requires req.clock < |f| && forall i :: 0 <= i < |reqs| ==> reqs[i].clock < |f|
    ensures forall i :: 0 <= i < |reqs + [req]| ==> (reqs + [req])[i].clock < |f|
    ensures TreeRequests(f, reqs + [req]) == TreeRequests(f, reqs) + if IsSingleNode(f, req.clock) then [] else [req]
  {
    assert (reqs + [req])[..|reqs|] == reqs;
  }

  lemma SingleServed(f: Forest, d: seq<nat>, drv: Driver, t: State, reqs: seq<SetReq>, req: SetReq)
    requires Depths(f, d) && req.clock < |f| && IsSingleNode(f, req.clock)
    requires (forall i :: 0 <= i < |reqs| ==> reqs[i].clock < |f|) && AllServed(f, t, reqs)
    ensures forall i :: 0 <= i < |reqs + [req]| ==> (reqs + [req])[i].clock < |f|
    ensures AllServed(f, ServeOne(f, d, drv, t, req), reqs + [req]) <==> WillConclude(f, d, drv, t, req)
  {
    var hold :| Settled(f, t, hold);
    var r, status := ServeSingle(f, d, drv, t, hold, req);
    TreeRequestsNext(f, reqs, req);
    assert TreeRequests(f, reqs) + [] == TreeRequests(f, reqs);
  }

  lemma TreeServed(f: Forest, d: seq<nat>, drv: Driver, t: State, reqs: seq<SetReq>, req: SetReq)
    requires Depths(f, d) && |reqs| + 1 + |f| + 4 < TWO32
    requires (forall i :: 0 <= i < |reqs| ==> reqs[i].clock < |f|) && AllServed(f, t, reqs)
    requires req.clock < |f| && !IsSingleNode(f, req.clock)
    requires req.state == RUNNING || (req.state == STOPPED && Outstanding(t.replies, req.clock) > 0)
    ensures forall i :: 0 <= i < |reqs + [req]| ==> (reqs + [req])[i].clock < |f|
    ensures AllServed(f, ServeOne(f, d, drv, t, req), reqs + [req]) <==> WillConclude(f, d, drv, t, req)
  {
    var hold :| Settled(f, t, hold);
    RoomForOne(f, t, hold, reqs, |reqs| + 1);
    var r, status := ServeTree(f, d, drv, t, hold, req);
    TreeRequestsNext(f, reqs, req);
    MatchesOne(t.replies, TreeRequests(f, reqs), req, status);
  }

  lemma RoomForOne(f: Forest, t: State, hold: seq<nat>, reqs: seq<SetReq>, n: nat)
    requires forall i :: 0 <= i < |reqs| ==> reqs[i].clock < |f|
    requires Settled(f, t, hold) && Matches(t.replies, TreeRequests(f, reqs)) && |reqs| < n && n + |f| + 4 < TWO32
    ensures Fits(f, hold)
  {
    TreeRequestsBound(f, reqs);
    forall c | 0 <= c < |f|
      ensures hold[c] + |f| + 4 < TWO32
    {
      OutstandingBound(t.replies, c);
    }
  }

  lemma MatchesOne(replies: seq<Event>, reqs: seq<SetReq>, req: SetReq, status: int)
    requires Matches(replies, reqs)
    ensures Matches(replies + [ReplyTo(req, status)], reqs + [req])
  {
  }

  /** Compliant drivers: after every request of a run of permitted requests, everything is served. */
  lemma {:induction false} RunServedByCompliant(f: Forest, d: seq<nat>, drv: Driver, s: State, hold: seq<nat>,
      reqs: seq<SetReq>)
    requires Depths(f, d) && Settled(f, s, hold) && s.replies == []
    requires Permitted(f, d, drv, s, reqs) && |reqs| + |f| + 4 < TWO32 && Compliant(drv)
    ensures RunServed(f, d, drv, s, reqs)
    decreases |reqs|
  {
    hide ServeAll, ServeOne, WillConclude, Settled, Compliant, AllServed;
    if reqs == [] {
    } else {
      var before, req := reqs[..|reqs| - 1], reqs[|reqs| - 1];
      PermittedPrefix(f, d, drv, s, reqs, |before|);
      RunServedByCompliant(f, d, drv, s, hold, before);
      WholeRun(f, d, drv, s, hold, before);
      CompliantWillConclude(f, d, drv, ServeAll(f, d, drv, s, before), before, req);
    }
    WholeRun(f, d, drv, s, hold, reqs);
  }

  lemma CompliantWillConclude(f: Forest, d: seq<nat>, drv: Driver, t: State, reqs: seq<SetReq>, req: SetReq)
    requires Depths(f, d) && Compliant(drv) && req.clock < |f| && MayAsk(f, t, req)
    requires (forall i :: 0 <= i < |reqs| ==> reqs[i].clock < |f|) && AllServed(f, t, reqs)
    ensures WillConclude(f, d, drv, t, req)
  {
    var hold :| Settled(f, t, hold);
    if IsSingleNode(f, req.clock) {
      assert !Drops(Record(SetState(req.clock, req.state), drv(|t.log|, SetState(req.clock, req.state))));
    } else {
      CompliantConcludes(f, d, drv, t, req.clock, req.state);
    }
  }
}
