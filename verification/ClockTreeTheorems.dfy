/**
  What the clock tree promises over a whole request, for every forest and every driver. Module ClockTreeRuns goes on to
  sequences of requests.
*/
module ClockTreeTheorems {
  import opened FwkStatus
  import opened ClockTree
  import opened ClockTreeInvariant
  import opened ClockTreeHolds
  import opened ClockTreeSteps
  import opened ClockTreeStops
  import opened ClockTreeRefusals
  import opened ClockTreeRequests
  import opened ClockTreeCalls
  import opened ClockTreeFlights

  // ---------- one request ----------

  /** The first events: a start climbs, and the STOP message of a stop sets out at once. */
  lemma FirstFlight(f: Forest, d: seq<nat>, drv: Driver, s: State, t: State, hold: seq<nat>, run: Run)
    requires Made(f, d, s, hold, run) && Quiescent(f, s, hold) && WellFormed(f, t)
    requires t.queue == [PreRequest(run.requester, Clock(run.chain[0]), run.target, SUCCESS)]
    requires t.log == s.log && t.replies == s.replies
    requires t.dev == s.dev[run.chain[0] := s.dev[run.chain[0]].(ongoing := true, initiator := true,
      cookie := run.cookie, delayed := [Delayed(run.cookie, run.requester)])]
    ensures InFlight(f, d, drv, s, t, hold, run, 3 * |run.chain|)
  {
    FirstDev(f, s.dev, t.dev[run.chain[0]], run);
    if run.target == RUNNING {
      FirstStart(f, d, drv, s, t, hold, run);
    } else {
      FirstStop(f, d, drv, s, t, hold, run);
    }
  }

  lemma FirstStart(f: Forest, d: seq<nat>, drv: Driver, s: State, t: State, hold: seq<nat>, run: Run)
    requires Made(f, d, s, hold, run) && Quiescent(f, s, hold) && WellFormed(f, t) && run.target == RUNNING
    requires t.queue == [PreRequest(run.requester, Clock(run.chain[0]), RUNNING, SUCCESS)]
    requires t.log == s.log && t.replies == s.replies && SameAccount(s.dev, t.dev)
    requires Stages(t.dev, run, 0) && Ongoing(t.dev, run, true, true)
    ensures Starting(f, d, drv, s, t, hold, run, 3 * |run.chain|)
  {
    assert MainEvents(run, Climb(0)) + StopEvents(NoStop) == t.queue;
    assert Extra(hold, run, Climb(0), NoStop) == hold;
    CountsKept(f, s.dev, t.dev, hold);
    assert t.log[run.from..] == [];
    assert StartingAt(f, d, drv, s, t, hold, run, Climb(0));
  }

  lemma StopsFirst(drv: Driver, s: State, log: seq<Record>, k: Track, p: Phase)
    requires k.run.chain != [] && Within(k.run.chain, s.dev) && k.run.target == STOPPED && log == s.log
    requires k.base == s && k.above == 0 && p.stops == [] && p.stop.Stop?
    ensures StopPromised(drv, s, log, k, p)
  {
    hide StopCalls;
  }

  lemma StopSets(f: Forest, d: seq<nat>, s: State, hold: seq<nat>, run: Run, k: Track)
    requires Made(f, d, s, hold, run) && run.target == STOPPED
    requires k == Track(run, s, hold[run.chain[0] := hold[run.chain[0]] - 1], 0, run.chain, run.level)
    ensures Setting(f, d, k)
  {
    var a := run.chain[0];
    assert run.chain[0..] == run.chain && AddAt(hold[a := hold[a] - 1], Some(a)) == hold;
  }

  lemma StopFlies(f: Forest, d: seq<nat>, s: State, t: State, hold: seq<nat>, run: Run, k: Track, p: Phase)
    requires Made(f, d, s, hold, run) && WellFormed(f, t) && run.target == STOPPED && Setting(f, d, k)
    requires t.queue == [PreRequest(run.requester, Clock(run.chain[0]), STOPPED, SUCCESS)]
    requires t.log == s.log && t.replies == s.replies && SameAccount(s.dev, t.dev)
    requires Stages(t.dev, run, 0) && Ongoing(t.dev, run, true, true)
    requires k == Track(run, s, hold[run.chain[0] := hold[run.chain[0]] - 1], 0, run.chain, run.level)
    requires p == Phase(StopPending, Stop(run.chain[0], run.requester, SUCCESS), [], false, false)
    ensures Flying(f, d, k, t, p)
  {
    hide Setting, Depths, IsLevels;
    var a := run.chain[0];
    assert AddAt(hold[a := hold[a] - 1], Some(a)) == hold;
    assert MainEvents(run, StopPending) + StopEvents(p.stop) == t.queue;
    CountsKept(f, s.dev, t.dev, hold);
    assert t.log[..|s.log|] == s.log;
  }

  lemma FirstStop(f: Forest, d: seq<nat>, drv: Driver, s: State, t: State, hold: seq<nat>, run: Run)
    requires Made(f, d, s, hold, run) && Quiescent(f, s, hold) && WellFormed(f, t) && run.target == STOPPED
    requires t.queue == [PreRequest(run.requester, Clock(run.chain[0]), STOPPED, SUCCESS)]
    requires t.log == s.log && t.replies == s.replies && SameAccount(s.dev, t.dev)
    requires Stages(t.dev, run, 0) && Ongoing(t.dev, run, true, true)
    ensures Stopping(f, d, drv, s, t, hold, run, 3 * |run.chain|)
  {
    hide Setting, Flying, StopPromised, Quiescent, Counts, Stages, Ongoing;
    var e, stop := hold[run.chain[0] := hold[run.chain[0]] - 1], Stop(run.chain[0], run.requester, SUCCESS);
    var k, p := Track(run, s, e, 0, run.chain, run.level), Phase(StopPending, stop, [], false, false);
    StopSets(f, d, s, hold, run, k);
    StopFlies(f, d, s, t, hold, run, k, p);
    StopsFirst(drv, s, t.log, k, p);
    assert Tracked(f, d, drv, s, t, hold, run, k, p);
  }

  /** After the request event, the pre-request event is in flight. */
  lemma FirstStep(f: Forest, d: seq<nat>, drv: Driver, s: State, hold: seq<nat>, requester: Entity, a: nat, state: nat,
      n: nat) returns (s1: State, t: State, run: Run)
    requires Depths(f, d) && Quiescent(f, s, hold) && MayRequest(f, hold, a, state) && !IsSingleNode(f, a)
    ensures SetStateCall(f, drv, s, requester, a, state) == (s1, PENDING)
    ensures WellFormed(f, s1) && SameAccount(s.dev, s1.dev) && s1.log == s.log
    ensures n > 0 ==> Drain(f, drv, s1, n) == Drain(f, drv, t, n - 1)
    ensures run == RunOf(f, d, s, requester, a, state) && Made(f, d, s, hold, run)
    ensures InFlight(f, d, drv, s, t, hold, run, 3 * d[a] + 3)
  {
    run := RunOf(f, d, s, requester, a, state);
    s1, t := CallForm(f, drv, s, requester, a, state);
    if n > 0 {
      DrainUnfold(f, drv, s1, t, n);
    }
    FirstFlight(f, d, drv, s, t, hold, run);
  }

  /** At every event the request is in flight, and it ends within `m` events. */
  lemma DrainStays(f: Forest, d: seq<nat>, drv: Driver, s: State, t: State, hold: seq<nat>, run: Run, m: int, n: nat)
      returns (r: State, m': int)
    requires InFlight(f, d, drv, s, t, hold, run, m)
    ensures r == Drain(f, drv, t, n) && InFlight(f, d, drv, s, r, hold, run, m')
    ensures n >= m ==> r.queue == []
  {
    var p := (x: State, k: int) => InFlight(f, d, drv, s, x, hold, run, k);
    forall x: State, k: int | p(x, k) && x.queue != []
      ensures p(Stepper(f, drv)(x), k - 1)
    {
      FlightStep(f, d, drv, s, x, hold, run, k);
    }
    m' := IterateKeeps(Stepper(f, drv), p, t, m, n);
    r := Iterate(Stepper(f, drv), t, n);
    if n >= m && r.queue != [] {
      FlightNotOver(f, d, drv, s, r, hold, run, m');
    }
  }

  lemma CallSafe(f: Forest, s: State, s1: State, hold: seq<nat>)
    requires Counts(f, s.dev, hold) && WellFormed(f, s1) && SameAccount(s.dev, s1.dev)
    ensures TreeSafe(f, s1)
  {
    CountsKept(f, s.dev, s1.dev, hold);
    CountsSafe(f, s1, hold);
  }

  /**
    The documented rule, at every event of a request under any driver: each running clock has a running parent exactly
    when no clock that was told to stop obeyed while the clock below it on the way had refused. The calls made are the
    first of those that can be foreseen.
  */
  lemma SafeAtEveryEvent(f: Forest, d: seq<nat>, drv: Driver, s: State, hold: seq<nat>, requester: Entity, a: nat,
      state: nat, n: nat) returns (r: State)
    requires Depths(f, d) && Quiescent(f, s, hold) && MayRequest(f, hold, a, state) && !IsSingleNode(f, a)
    ensures r == Drain(f, drv, SetStateCall(f, drv, s, requester, a, state).0, n)
    ensures |s.log| <= |r.log| && r.log <= LogOf(f, d, drv, s, a, state)
    ensures TreeSafe(f, r) <==> RefusalsReach(r.log, StopsFrom(r.log, |s.log|, state))
  {
    hide InFlight, Made, Drain, SetStateCall;
    var s1, t, run := FirstStep(f, d, drv, s, hold, requester, a, state, n);
    if n == 0 {
      r := s1;
      DrainDone(f, drv, s1, n);
      CallSafe(f, s, s1, hold);
    } else {
      var m;
      r, m := DrainStays(f, d, drv, s, t, hold, run, 3 * d[a] + 3, n - 1);
      SafeInFlight(f, d, drv, s, r, hold, run, m);
      LogInFlight(f, d, drv, s, r, hold, run, m);
    }
  }

  /** Refusals that reach up among all calls do so among the first of them. */
  lemma ReachEarlier(log: seq<Record>, all: seq<Record>, from: nat, state: nat)
    requires from <= |log| && log <= all && RefusalsReach(all, StopsFrom(all, from, state))
    ensures RefusalsReach(log, StopsFrom(log, from, state))
  {
    var calls := log[from..];
    FailureAt(calls);
    if state != STOPPED && FirstFailing(calls) < |calls| {
      assert forall i :: 0 <= i < |calls| ==> all[from..][i] == calls[i];
      FirstFailingIs(all[from..], FirstFailing(calls));
    }
    if state == STOPPED || FirstFailing(calls) < |calls| {
      var q := StopsFrom(log, from, state);
      assert q == StopsFrom(all, from, state);
      forall j: nat, k: nat | k == j + 1 && StopRefused(log, q, j) && StopAsked(log, q, k)
        ensures StopRefused(log, q, k)
      {
        assert StopRefused(all, q, j) && StopAsked(all, q, k);
      }
    }
  }

  /** The documented rule holds after every event exactly when, among the calls foreseen, refusals reach up. */
  lemma SafeThroughout(f: Forest, d: seq<nat>, drv: Driver, s: State, hold: seq<nat>, requester: Entity, a: nat,
      state: nat)
    requires Depths(f, d) && Quiescent(f, s, hold) && MayRequest(f, hold, a, state) && !IsSingleNode(f, a)
    ensures var all := LogOf(f, d, drv, s, a, state);
      (forall n: nat :: TreeSafe(f, Drain(f, drv, SetStateCall(f, drv, s, requester, a, state).0, n))) <==>
      RefusalsReach(all, StopsFrom(all, |s.log|, state))
  {
    hide Drain, SetStateCall, LogOf, TreeSafe;
    var all := LogOf(f, d, drv, s, a, state);
    if forall n: nat :: TreeSafe(f, Drain(f, drv, SetStateCall(f, drv, s, requester, a, state).0, n)) {
      var m := 3 * d[a] + 4;
      var r, q := StopsRefused(f, d, drv, s, hold, requester, a, state, m);
      assert TreeSafe(f, Drain(f, drv, SetStateCall(f, drv, s, requester, a, state).0, m));
    }
    if RefusalsReach(all, StopsFrom(all, |s.log|, state)) {
      forall n: nat
        ensures TreeSafe(f, Drain(f, drv, SetStateCall(f, drv, s, requester, a, state).0, n))
      {
        var r := SafeAtEveryEvent(f, d, drv, s, hold, requester, a, state, n);
        ReachEarlier(r.log, all, |s.log|, state);
      }
    }
  }

  /** The request drained: at least 3 * depth + 4 events (at most 3 * depth + 1 of them pre-requests). */
  lemma RequestDrain(f: Forest, d: seq<nat>, drv: Driver, s: State, hold: seq<nat>, requester: Entity, a: nat,
      state: nat, n: nat) returns (r: State, run: Run)
    requires Depths(f, d) && Quiescent(f, s, hold) && MayRequest(f, hold, a, state) && !IsSingleNode(f, a)
    requires n >= 3 * d[a] + 4
    ensures SetStateCall(f, drv, s, requester, a, state).1 == PENDING
    ensures r == Drain(f, drv, SetStateCall(f, drv, s, requester, a, state).0, n)
    ensures run == RunOf(f, d, s, requester, a, state) && Made(f, d, s, hold, run)
    ensures Within(run.chain, s.dev) && Outcome(f, drv, s, r, hold, run) && r.log == LogOf(f, d, drv, s, a, state)
  {
    hide InFlight, Made, Drain, SetStateCall, Outcome;
    var s1, t;
    s1, t, run := FirstStep(f, d, drv, s, hold, requester, a, state, n);
    var m;
    r, m := DrainStays(f, d, drv, s, t, hold, run, 3 * d[a] + 3, n - 1);
    FlightEnds(f, d, drv, s, r, hold, run, m);
    OutcomeLog(f, d, drv, s, r, hold, run, requester, a, state);
  }

  lemma OutcomeLog(f: Forest, d: seq<nat>, drv: Driver, s: State, r: State, hold: seq<nat>, run: Run,
      requester: Entity, a: nat, state: nat)
    requires Made(f, d, s, hold, run) && a < |f| && run == RunOf(f, d, s, requester, a, state)
    requires Within(run.chain, s.dev) && Outcome(f, drv, s, r, hold, run)
    ensures r.log == LogOf(f, d, drv, s, a, state)
  {
    hide LogAfter;
  }

  /** The request is answered once, with the first status a driver failed with, and everything is settled. */
  ghost predicate Served(f: Forest, s: State, r: State, hold: seq<nat>, requester: Entity, a: nat, state: nat)
    requires a < |hold| && (state == STOPPED ==> hold[a] > 0)
  {
    && |s.log| <= |r.log|
    && var status := FirstFailure(r.log[|s.log|..]);
      && r.replies == s.replies + [Reply(requester, a, status, state)]
      && Quiescent(f, r, HoldAfter(hold, a, state, status))
  }

  /**
    A request on a clock of a tree, over within 3 * depth + 4 events, under any driver. It is answered once with the
    first status a driver failed with, every clock is idle again and every reference accounted for, the requester having
    its hold for the status SUCCESS, exactly when of the calls foreseen no query is answered with PENDING and no
    transition with PENDING or E_SUPPORT, and every query and transition of a STOP message succeeds.
  */
  lemma SetStateServed(f: Forest, d: seq<nat>, drv: Driver, s: State, hold: seq<nat>, requester: Entity, a: nat,
      state: nat, n: nat) returns (r: State)
    requires Depths(f, d) && Quiescent(f, s, hold) && MayRequest(f, hold, a, state) && !IsSingleNode(f, a)
    requires n >= 3 * d[a] + 4
    ensures SetStateCall(f, drv, s, requester, a, state).1 == PENDING
    ensures r == Drain(f, drv, SetStateCall(f, drv, s, requester, a, state).0, n)
    ensures r.log == LogOf(f, d, drv, s, a, state) && r.queue == []
    ensures Served(f, s, r, hold, requester, a, state) <==> Concludes(LogOf(f, d, drv, s, a, state), |s.log|, state)
  {
    hide Drain, SetStateCall;
    var run;
    r, run := RequestDrain(f, d, drv, s, hold, requester, a, state, n);
    ServedExactly(f, d, drv, s, r, hold, run);
  }

  lemma ServedExactly(f: Forest, d: seq<nat>, drv: Driver, s: State, r: State, hold: seq<nat>, run: Run)
    requires Made(f, d, s, hold, run) && Within(run.chain, s.dev) && Outcome(f, drv, s, r, hold, run)
    ensures Served(f, s, r, hold, run.requester, run.chain[0], run.target) <==>
      Concludes(r.log, run.from, run.target)
  {
    var a, status := run.chain[0], Answered(drv, s, r.log, run);
    if Served(f, s, r, hold, run.requester, a, run.target) {
      assert !Dropped(drv, s, r.log, run);
      assert r.replies[|s.replies|] == Reply(run.requester, a, status, run.target);
      assert status == FirstFailure(r.log[run.from..]);
    }
  }

  /**
    Whether the request is answered, and with which status: a start is dropped at the call that fails, when that is a
    query answered PENDING or a transition answered PENDING or E_SUPPORT; a stop when that happens at its own clock. The
    clock refuses every later request exactly when this one is dropped.
  */
  lemma SetStateAnswered(f: Forest, d: seq<nat>, drv: Driver, s: State, hold: seq<nat>, requester: Entity, a: nat,
      state: nat, n: nat) returns (r: State)
    requires Depths(f, d) && Quiescent(f, s, hold) && MayRequest(f, hold, a, state) && !IsSingleNode(f, a)
    requires n >= 3 * d[a] + 4
    ensures r == Drain(f, drv, SetStateCall(f, drv, s, requester, a, state).0, n)
    ensures r.log == LogOf(f, d, drv, s, a, state)
    ensures var dropped := if state == STOPPED then StopDropped(drv, s, a) else StartDropped(f, d, drv, s, a);
      var status := if state == STOPPED then StopAnswer(drv, s, a) else StartAnswer(f, d, drv, s, a);
      && r.replies == s.replies + (if dropped then [] else [Reply(requester, a, status, state)])
      && (dropped <==> Busy(f, drv, r, a))
  {
    hide Drain;
    var run;
    r, run := RequestDrain(f, d, drv, s, hold, requester, a, state, n);
    BusyExactly(f, d, drv, s, r, hold, run);
  }

  lemma BusyExactly(f: Forest, d: seq<nat>, drv: Driver, s: State, r: State, hold: seq<nat>, run: Run)
    requires Made(f, d, s, hold, run) && Within(run.chain, s.dev) && Outcome(f, drv, s, r, hold, run)
    ensures Busy(f, drv, r, run.chain[0]) <==> Dropped(drv, s, r.log, run)
  {
    var a := run.chain[0];
    if !Dropped(drv, s, r.log, run) {
      assert SetStateCall(f, drv, r, run.requester, a, RUNNING).1 == PENDING;
    }
  }

  /**
    What drivers that refuse to stop leave behind: STOP messages climb from clock to parent; the clocks of trees that
    run without a reference are exactly those that refused; and the rule holds exactly when refusals reach up.
  */
  lemma StopsRefused(f: Forest, d: seq<nat>, drv: Driver, s: State, hold: seq<nat>, requester: Entity, a: nat,
      state: nat, n: nat) returns (r: State, q: nat)
    requires Depths(f, d) && Quiescent(f, s, hold) && MayRequest(f, hold, a, state) && !IsSingleNode(f, a)
    requires n >= 3 * d[a] + 4
    ensures r == Drain(f, drv, SetStateCall(f, drv, s, requester, a, state).0, n)
    ensures r.log == LogOf(f, d, drv, s, a, state) && |r.dev| == |f|
    ensures q == StopsFrom(r.log, |s.log|, state) && CallsClimb(f, r.log, q)
    ensures TreeSafe(f, r) <==> RefusalsReach(r.log, q)
    ensures forall c: nat :: c < |f| ==> (Orphan(f, r.dev, c) <==> RefusedAt(r.log, q, c))
  {
    hide Drain, SetStateCall;
    var run;
    r, run := RequestDrain(f, d, drv, s, hold, requester, a, state, n);
    q := StopsFrom(r.log, |s.log|, state);
  }

  // ---------- a start that fails ----------

  /** The context of clock `c` is as it was, and in a tree so is the state of its driver. */
  ghost predicate AsBefore(f: Forest, dev: seq<Dev>, dev': seq<Dev>, c: nat)
    requires c < |f| == |dev| == |dev'|
  {
    && dev'[c].refCount == dev[c].refCount && dev'[c].stage == dev[c].stage && dev'[c].initiator == dev[c].initiator
    && dev'[c].ongoing == dev[c].ongoing && dev'[c].delayed == dev[c].delayed
    && (!IsSingleNode(f, c) ==> dev'[c].running == dev[c].running)
  }

  lemma {:induction false} SuccessTold(log: seq<Record>)
    requires FirstFailure(log) == SUCCESS
    ensures NoneDrops(log) && FirstFailing(log) == |log|
  {
    if log == [] {
    } else {
      SuccessTold(log[1..]);
      assert forall i :: 1 <= i < |log| ==> log[i] == log[1..][i - 1];
    }
  }

  lemma BeforeCounts(f: Forest, dev: seq<Dev>, dev': seq<Dev>, hold: seq<nat>)
    requires Counts(f, dev, hold) && |dev'| == |f| && forall c :: 0 <= c < |f| ==> AsBefore(f, dev, dev', c)
    ensures Counts(f, dev', hold) && (AllIdleIn(dev) ==> AllIdleIn(dev'))
  {
    forall c | 0 <= c < |f|
      ensures dev'[c].refCount == dev[c].refCount && dev'[c].stage == dev[c].stage
      ensures dev'[c].initiator == dev[c].initiator && dev'[c].ongoing == dev[c].ongoing
      ensures dev'[c].delayed == dev[c].delayed && (!IsSingleNode(f, c) ==> dev'[c].running == dev[c].running)
    {
      assert AsBefore(f, dev, dev', c);
    }
    forall p | 0 <= p < |f|
      ensures RunningKids(f, dev, p) == RunningKids(f, dev', p)
    {
      SameKids(f, dev, dev', p);
    }
  }

  /**
    A start that fails anywhere on the chain is answered with the failing status and rolled back, every clock being as
    it was before the request, exactly when the failing call does not make the code drop it and the roll-back meets no
    driver that fails. A start that succeeds leaves every clock of the chain running.
  */
  lemma FailedStartRollsBack(f: Forest, d: seq<nat>, drv: Driver, s: State, hold: seq<nat>, requester: Entity, a: nat,
      n: nat) returns (r: State)
    requires Depths(f, d) && Quiescent(f, s, hold) && MayRequest(f, hold, a, RUNNING) && !IsSingleNode(f, a)
    requires n >= 3 * d[a] + 4
    ensures r == Drain(f, drv, SetStateCall(f, drv, s, requester, a, RUNNING).0, n)
    ensures r.log == LogOf(f, d, drv, s, a, RUNNING) && |r.dev| == |s.dev|
    ensures var status := StartAnswer(f, d, drv, s, a);
      if status != SUCCESS then
        Concludes(LogOf(f, d, drv, s, a, RUNNING), |s.log|, RUNNING) <==>
          && r.replies == s.replies + [Reply(requester, a, status, RUNNING)]
          && forall c :: 0 <= c < |f| ==> AsBefore(f, s.dev, r.dev, c)
      else
        && r.replies == s.replies + [Reply(requester, a, status, RUNNING)]
        && forall k :: 0 <= k <= d[a] ==> ChainOf(f, d, a)[k] < |r.dev| && r.dev[ChainOf(f, d, a)[k]].running
  {
    hide Drain, SetStateCall;
    var run;
    r, run := RequestDrain(f, d, drv, s, hold, requester, a, RUNNING, n);
    ServedExactly(f, d, drv, s, r, hold, run);
    var status := FirstFailure(r.log[|s.log|..]);
    if status == SUCCESS {
      SuccessTold(r.log[|s.log|..]);
      forall k: nat | k <= d[a]
        ensures r.dev[ChainOf(f, d, a)[k]].running
      {
        ChainNotSingle(f, d, ChainOf(f, d, a), k);
        HeldRuns(f, d, r.dev, hold[a := hold[a] + 1], a, k);
      }
    } else {
      BackExactly(f, d, s, r, hold, requester, a, status);
    }
  }

  /** After a failed start, served means everything as before. */
  lemma BackExactly(f: Forest, d: seq<nat>, s: State, r: State, hold: seq<nat>, requester: Entity, a: nat, status: int)
    requires Depths(f, d) && Quiescent(f, s, hold) && a < |hold| && WellFormed(f, r) && r.queue == []
    requires |s.log| <= |r.log| && status == FirstFailure(r.log[|s.log|..]) && status != SUCCESS
    ensures Served(f, s, r, hold, requester, a, RUNNING) <==>
      && r.replies == s.replies + [Reply(requester, a, status, RUNNING)]
      && forall c :: 0 <= c < |f| ==> AsBefore(f, s.dev, r.dev, c)
  {
    if Served(f, s, r, hold, requester, a, RUNNING) {
      HoldsDetermineTree(f, d, s.dev, r.dev, hold);
    }
    if forall c :: 0 <= c < |f| ==> AsBefore(f, s.dev, r.dev, c) {
      BeforeCounts(f, s.dev, r.dev, hold);
    }
  }

  // ---------- drivers that stop when they are told to ----------

  /** No driver refuses to stop. */
  ghost predicate Obedient(drv: Driver) {
    forall n: nat, c: nat :: drv(n, SetState(c, STOPPED)) == SUCCESS
  }

  /**
    Stops, and the queries before them, succeed. Starts, and the queries before them, may fail with any status for which
    the code does not drop the request.
  */
  ghost predicate Compliant(drv: Driver) {
    forall n: nat, call: Call ::
      !Drops(Record(call, drv(n, call))) && (CallFor(call, STOPPED) ==> drv(n, call) == SUCCESS)
  }

  lemma CompliantConcludes(f: Forest, d: seq<nat>, drv: Driver, s: State, a: nat, state: nat)
    requires Depths(f, d) && a < |f| == |s.dev| && (state == STOPPED || state == RUNNING) && Compliant(drv)
    ensures Concludes(LogOf(f, d, drv, s, a, state), |s.log|, state)
  {
    hide LogOf, StopsFrom, CallFor;
    var log, n := LogOf(f, d, drv, s, a, state), |s.log|;
    LogForeseen(f, d, drv, s, a, state);
    forall i | n <= i < |log|
      ensures !Drops(log[i]) && (StopsFrom(log, n, state) <= i ==> log[i].status == SUCCESS)
    {
      assert log[i] == Record(log[i].call, drv(i, log[i].call));
    }
    assert forall i :: 0 <= i < |log[n..]| ==> log[n..][i] == log[n + i];
  }

  /** Compliant drivers: every request is answered with the first failure and the references are accounted for. */
  lemma ServedByCompliant(f: Forest, d: seq<nat>, drv: Driver, s: State, hold: seq<nat>, requester: Entity, a: nat,
      state: nat, n: nat) returns (r: State)
    requires Depths(f, d) && Quiescent(f, s, hold) && MayRequest(f, hold, a, state) && !IsSingleNode(f, a)
    requires n >= 3 * d[a] + 4 && Compliant(drv)
    ensures r == Drain(f, drv, SetStateCall(f, drv, s, requester, a, state).0, n)
    ensures r.queue == [] && Served(f, s, r, hold, requester, a, state)
  {
    hide Drain, SetStateCall;
    r := SetStateServed(f, d, drv, s, hold, requester, a, state, n);
    CompliantConcludes(f, d, drv, s, a, state);
  }

  /** Compliant drivers: a failed start is answered with the failing status and leaves every clock as it was. */
  lemma RolledBackByCompliant(f: Forest, d: seq<nat>, drv: Driver, s: State, hold: seq<nat>, requester: Entity, a: nat,
      n: nat) returns (r: State)
    requires Depths(f, d) && Quiescent(f, s, hold) && MayRequest(f, hold, a, RUNNING) && !IsSingleNode(f, a)
    requires n >= 3 * d[a] + 4 && Compliant(drv)
    ensures r == Drain(f, drv, SetStateCall(f, drv, s, requester, a, RUNNING).0, n) && |r.dev| == |s.dev|
    ensures r.replies == s.replies + [Reply(requester, a, StartAnswer(f, d, drv, s, a), RUNNING)]
    ensures StartAnswer(f, d, drv, s, a) != SUCCESS ==> forall c :: 0 <= c < |f| ==> AsBefore(f, s.dev, r.dev, c)
  {
    hide Drain, SetStateCall;
    r := FailedStartRollsBack(f, d, drv, s, hold, requester, a, n);
    CompliantConcludes(f, d, drv, s, a, RUNNING);
  }

  /** Obedient drivers: after every event of a request each running clock has a running parent. */
  lemma SafeByObedient(f: Forest, d: seq<nat>, drv: Driver, s: State, hold: seq<nat>, requester: Entity, a: nat,
      state: nat, n: nat)
    requires Depths(f, d) && Quiescent(f, s, hold) && MayRequest(f, hold, a, state) && !IsSingleNode(f, a)
    requires Obedient(drv)
    ensures TreeSafe(f, Drain(f, drv, SetStateCall(f, drv, s, requester, a, state).0, n))
  {
    hide Drain, SetStateCall;
    var all := LogOf(f, d, drv, s, a, state);
    var q := StopsFrom(all, |s.log|, state);
    LogForeseen(f, d, drv, s, a, state);
    var r := SafeAtEveryEvent(f, d, drv, s, hold, requester, a, state, n);
    var end, _ := StopsRefused(f, d, drv, s, hold, requester, a, state, 3 * d[a] + 4);
    forall j: nat | StopAsked(all, q, j)
      ensures !StopRefused(all, q, j)
    {
      assert ClimbsAt(f, all, q, j);
      var i := q + 2 * j + 1;
      assert all[i].status == drv(i, all[i].call);
    }
    ReachEarlier(r.log, all, |s.log|, state);
  }
}
