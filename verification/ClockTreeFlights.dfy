/**
  A request on a clock of a tree from its call to its last event, under any driver: first it starts clocks, and when it
  is a stop, or when a start fails, a STOP message climbs.
*/
module ClockTreeFlights {
  import opened FwkStatus
  import opened ClockTree
  import opened ClockTreeInvariant
  import opened ClockTreeHolds
  import opened ClockTreeSteps
  import opened ClockTreeStops
  import opened ClockTreeCalls
  import opened ClockTreeRefusals
  import opened ClockTreeRequests

  // ---------- a request in flight ----------

  /** The last of the calls failed with `status`, which did not make the code drop the request. */
  ghost predicate FailedLast(log: seq<Record>, from: nat, status: int) {
    Late(log, from) && Told(log, from, status) && status != SUCCESS
  }

  lemma FailedStops(before: seq<Record>, log: seq<Record>, from: nat, status: int)
    requires FailedLast(before, from, status) && |before| <= |log| && log[..|before|] == before
    ensures from < |before| && StopsFrom(log, from, RUNNING) == |before|
    ensures FirstFailure(log[from..]) == status && NoneDrops(before[from..])
  {
    var calls := before[from..];
    FailureAt(calls);
    var q := FirstFailing(calls);
    assert q == |calls| - 1 by {
      assert calls[q] == before[from + q];
    }
    forall i | 0 <= i <= q
      ensures log[from..][i] == calls[i]
    {
      assert log[from + i] == log[..|before|][from + i];
    }
    FirstFailingIs(log[from..], q);
    FailureAt(log[from..]);
  }

  /** The calls made and those still to come of a start at `main` are the calls of the request. */
  ghost predicate StartPromised(drv: Driver, s: State, log: seq<Record>, run: Run, main: Main)
    requires run.chain != []
  {
    && Within(run.chain, s.dev)
    && log + StartRest(drv, run.chain, s.dev, |log|, main) == LogAfter(drv, s, run.chain, run.target)
  }

  /** The same for a STOP message on its way. */
  ghost predicate StopPromised(drv: Driver, s: State, log: seq<Record>, k: Track, p: Phase)
    requires k.run.chain != []
  {
    var l := k.above + |p.stops|;
    && Within(k.run.chain, s.dev) && Within(k.run.chain, k.base.dev) && (p.stop.Stop? ==> l < |k.run.chain|)
    && log + (if p.stop.Stop? then StopCalls(drv, k.run.chain, k.base.dev, 0, |log|, l) else []) ==
       LogAfter(drv, s, k.run.chain, k.run.target)
  }

  /** A start that is at `main`. */
  ghost predicate StartingAt(f: Forest, d: seq<nat>, drv: Driver, s: State, t: State, hold: seq<nat>, run: Run,
      main: Main)
  {
    && Inv(f, d, t, hold, run, main, NoStop) && Late(t.log, run.from) && StartPromised(drv, s, t.log, run, main)
  }

  ghost predicate Starting(f: Forest, d: seq<nat>, drv: Driver, s: State, t: State, hold: seq<nat>, run: Run, m: int) {
    exists main: Main :: StartingAt(f, d, drv, s, t, hold, run, main) && Measure(d, run, main, NoStop) <= m
  }

  /** How a climbing STOP message belongs to the request made in state `s`. */
  ghost predicate Belongs(drv: Driver, s: State, log: seq<Record>, hold: seq<nat>, k: Track, p: Phase)
    requires k.run.chain != [] && k.run.chain[0] < |s.dev| && k.run.chain[0] < |hold|
  {
    var a := k.run.chain[0];
    if k.above == 0 then
      && k.base == s && hold[a] > 0 && k.e == hold[a := hold[a] - 1]
      && (!p.main.StopPending? ==> (p.main.Lost? <==> StopDropped(drv, s, a)))
      && (!p.main.StopPending? && !p.main.Lost? ==> StatusSoFar(p.main) == StopAnswer(drv, s, a))
      && (p.stops == [] && p.more ==> log != [] && log[|log| - 1].status == drv(|s.log|, GetState(a, STOPPED)))
    else
      k.e == hold && !p.main.Lost? && FailedLast(k.base.log, k.run.from, StatusSoFar(p.main))
  }

  ghost predicate Tracked(f: Forest, d: seq<nat>, drv: Driver, s: State, t: State, hold: seq<nat>, run: Run, k: Track,
      p: Phase)
    requires run.chain != [] && run.chain[0] < |s.dev| && run.chain[0] < |hold|
  {
    && k.run == run && Setting(f, d, k) && WellFormed(f, k.base) && Flying(f, d, k, t, p)
    && Belongs(drv, s, t.log, hold, k, p) && StopPromised(drv, s, t.log, k, p)
  }

  ghost predicate Stopping(f: Forest, d: seq<nat>, drv: Driver, s: State, t: State, hold: seq<nat>, run: Run, m: int)
    requires run.chain != [] && run.chain[0] < |s.dev| && run.chain[0] < |hold|
  {
    exists k: Track, p: Phase ::
      Tracked(f, d, drv, s, t, hold, run, k, p) && Measure(d, run, p.main, p.stop) <= m
  }

  /** What is fixed during a request made in state `s`. */
  ghost predicate Made(f: Forest, d: seq<nat>, s: State, hold: seq<nat>, run: Run) {
    && Depths(f, d) && Fixed(f, d, hold, run) && WellFormed(f, s) && Counts(f, s.dev, hold)
    && run.from == |s.log| && run.replies == s.replies
  }

  /** A request is in flight with at most `m` events to come. */
  ghost predicate InFlight(f: Forest, d: seq<nat>, drv: Driver, s: State, t: State, hold: seq<nat>, run: Run, m: int) {
    && WellFormed(f, t) && Made(f, d, s, hold, run)
    && (Starting(f, d, drv, s, t, hold, run, m) || Stopping(f, d, drv, s, t, hold, run, m))
  }

  // ---------- any event ----------

  lemma ChainTail(f: Forest, d: seq<nat>, chain: seq<nat>, above: nat)
    requires IsChain(f, d, chain) && above < |chain|
    ensures IsChain(f, d, chain[above..])
  {
    var tail := chain[above..];
    forall i | 0 <= i < |tail|
      ensures tail[i] == chain[above + i] && d[tail[i]] == |tail| - 1 - i
      ensures f[tail[i]] == if i + 1 < |tail| then Some(tail[i + 1]) else None
    {
    }
  }

  /** A failed start turns back: the STOP message sets out. */
  lemma TurnBack(f: Forest, d: seq<nat>, drv: Driver, s: State, u: State, hold: seq<nat>, run: Run, above: nat,
      main: Main, stop: Stop)
    requires Made(f, d, s, hold, run) && WellFormed(f, u) && Inv(f, d, u, hold, run, main, stop)
    requires TurnsBack(run, above, main, stop) && Late(u.log, run.from) && Within(run.chain, s.dev)
    requires u.log + StopCalls(drv, run.chain, s.dev, 1, |u.log|, above) == LogAfter(drv, s, run.chain, run.target)
    ensures Stopping(f, d, drv, s, u, hold, run, Measure(d, run, main, stop))
  {
    hide LogAfter, StopCalls;
    ChainTail(f, d, run.chain, above);
    var chain := run.chain[above..];
    var k := Track(run, u, hold, above, chain, LevelsOf(f, d, chain));
    var p := Phase(main, stop, [], false, false);
    assert Setting(f, d, k);
    TurnedFlies(f, d, u, hold, k, p);
    TurnedCalls(f, d, drv, s.dev, u.dev, hold, run.chain, above, |u.log|, above);
    assert Tracked(f, d, drv, s, u, hold, run, k, p);
  }

  lemma TurnedFlies(f: Forest, d: seq<nat>, u: State, hold: seq<nat>, k: Track, p: Phase)
    requires Setting(f, d, k) && WellFormed(f, u) && Inv(f, d, u, hold, k.run, p.main, p.stop)
    requires TurnsBack(k.run, k.above, p.main, p.stop) && k.base == u && k.e == hold
    requires p.stops == [] && !p.gave && !p.more
    ensures Flying(f, d, k, u, p)
  {
    assert u.log[..|u.log|] == u.log;
  }

  lemma ClimbCallsKept(f: Forest, d: seq<nat>, drv: Driver, s: State, log: seq<Record>, run: Run, k: nat)
    requires IsChain(f, d, run.chain) && k < |run.chain| && StartPromised(drv, s, log, run, Climb(k))
    ensures var c := run.chain[k];
      var running := s.dev[c].running;
      StartPromised(drv, s, log + ClimbRecords(f, drv, |log|, c, running), run,
                    ClimbMain(f, drv, |log|, c, running, k))
  {
    hide LogAfter, StartRest, ClimbMain, ClimbRecords;
    ClimbPromise(f, d, drv, run.chain, s.dev, |log|, k);
  }

  lemma DownCallsKept(drv: Driver, s: State, log: seq<Record>, run: Run, k: nat)
    requires k + 1 < |run.chain| && StartPromised(drv, s, log, run, Down(k, SUCCESS))
    ensures Within(run.chain, s.dev)
    ensures var rec := Record(SetState(run.chain[k], RUNNING), drv(|log|, SetState(run.chain[k], RUNNING)));
      if rec.status != SUCCESS && !Drops(rec) then
        log + [rec] + StopCalls(drv, run.chain, s.dev, 1, |log| + 1, k + 1) == LogAfter(drv, s, run.chain, run.target)
      else
        StartPromised(drv, s, log + [rec], run, AfterCalls(k, rec, Some(run.chain[k + 1])))
  {
    hide LogAfter, StartRest, StopCalls, AfterCalls, Drops;
    DownPromise(drv, run.chain, s.dev, |log|, k);
  }

  /** An event of a start makes the calls that were promised. */
  lemma StartCallsKept(f: Forest, d: seq<nat>, drv: Driver, s: State, t: State, r: State, hold: seq<nat>, run: Run,
      main: Main, main': Main, stop': Stop)
    requires Made(f, d, s, hold, run) && StartingAt(f, d, drv, s, t, hold, run, main)
    requires Advanced(f, drv, t, r, run, main, main', stop')
    ensures if stop'.Stop? then
        main.Down? && main.k + 1 < |run.chain| &&
        r.log + StopCalls(drv, run.chain, s.dev, 1, |r.log|, main.k + 1) == LogAfter(drv, s, run.chain, run.target)
      else
        StartPromised(drv, s, r.log, run, main')
  {
    hide LogAfter, ClimbCalls, DownCalls, StopCalls, ClimbMain, ClimbRecords, AfterCalls, Counts;
    match main
    case Climb(k) =>
      RunsAsBefore(f, d, s, t, hold, run, k);
      ClimbCallsKept(f, d, drv, s, t.log, run, k);
    case Down(k, status) =>
      if status == SUCCESS {
        DownCallsKept(drv, s, t.log, run, k);
      } else {
        AnswerPromise(drv, run.chain, s.dev, |t.log|, k, status);
      }
    case _ =>
  }

  /** As long as a start climbs, clocks run as before the request. */
  lemma RunsAsBefore(f: Forest, d: seq<nat>, s: State, t: State, hold: seq<nat>, run: Run, k: nat)
    requires Made(f, d, s, hold, run) && Inv(f, d, t, hold, run, Climb(k), NoStop)
    ensures k < |run.chain| && run.chain[k] < |t.dev| == |s.dev|
    ensures s.dev[run.chain[k]].running == t.dev[run.chain[k]].running
  {
    ChainNotSingle(f, d, run.chain, k);
    assert Extra(hold, run, Climb(k), NoStop) == hold;
    HoldsDetermineTree(f, d, s.dev, t.dev, hold);
  }

  lemma StartingStep(f: Forest, d: seq<nat>, drv: Driver, s: State, t: State, hold: seq<nat>, run: Run, m: int)
    requires WellFormed(f, t) && Made(f, d, s, hold, run) && Starting(f, d, drv, s, t, hold, run, m) && t.queue != []
    ensures InFlight(f, d, drv, s, Step(f, drv, t), hold, run, m - 1)
  {
    hide Step;
    var main: Main :| StartingAt(f, d, drv, s, t, hold, run, main) && Measure(d, run, main, NoStop) <= m;
    var main', stop' := StepStarting(f, d, drv, t, hold, run, main);
    var r := Step(f, drv, t);
    StartCallsKept(f, d, drv, s, t, r, hold, run, main, main', stop');
    if stop'.Stop? {
      TurnBack(f, d, drv, s, r, hold, run, main.k + 1, main', stop');
    } else {
      assert StartingAt(f, d, drv, s, r, hold, run, main');
    }
  }

  /** The first STOP message of a stop is processed in the state of the request: its answer is that of the request. */
  lemma BelongsMessage(drv: Driver, s: State, t: State, log: seq<Record>, hold: seq<nat>, k: Track, p: Phase, p': Phase)
    requires k.run.chain != [] && k.run.chain[0] < |s.dev| && k.run.chain[0] < |hold|
    requires Belongs(drv, s, t.log, hold, k, p)
    requires p.stop.Stop? && p.stop.at < |t.dev| && (p.main.StopPending? <==> p.stop.at == k.run.chain[0])
    requires p.main.StopPending? ==>
      && k.above == 0 && |t.log| == |k.base.log| && |t.dev| == |k.base.dev|
      && t.dev[p.stop.at].refCount == k.base.dev[p.stop.at].refCount
      && p'.main == if StopDropped(drv, t, p.stop.at) then Lost(0, None) else Respond(StopAnswer(drv, t, p.stop.at))
    requires !p.main.StopPending? ==> p'.main == p.main && (k.above == 0 ==> p.stops != [])
    requires p.stops != [] ==> p'.stops != []
    requires p'.stops == [] ==>
      log == t.log + [Record(GetState(p.stop.at, STOPPED), drv(|t.log|, GetState(p.stop.at, STOPPED)))]
    ensures Belongs(drv, s, log, hold, k, p')
  {
  }

  /** A STOP message makes the calls that were promised. */
  lemma MessageCallsKept(drv: Driver, s: State, t: State, r: State, k: Track, p: Phase, p': Phase)
    requires k.run.chain != [] && StopPromised(drv, s, t.log, k, p) && p.stop.Stop?
    requires p.stop.at == k.run.chain[k.above + |p.stops|] && p.stop.at < |t.dev|
    requires t.dev[p.stop.at].refCount == k.base.dev[p.stop.at].refCount
    requires r.log == t.log + MessageCalls(drv, |t.log|, p.stop.at, t.dev[p.stop.at].refCount)
    requires p'.stop.Stop? <==>
      MessageClimbs(drv, |t.log|, p.stop.at, t.dev[p.stop.at].refCount) && k.above + |p.stops| + 1 < |k.run.chain|
    requires p'.stop.Stop? ==> |p'.stops| == |p.stops| + 1
    ensures StopPromised(drv, s, r.log, k, p')
  {
    hide LogAfter, StopCalls, MessageCalls, MessageClimbs;
    StopPromise(drv, k.run.chain, k.base.dev, |t.log|, k.above + |p.stops|);
  }

  lemma MessageStep(f: Forest, d: seq<nat>, drv: Driver, s: State, t: State, hold: seq<nat>, run: Run, k: Track,
      p: Phase)
    requires Made(f, d, s, hold, run) && Tracked(f, d, drv, s, t, hold, run, k, p) && p.stop.Stop?
    requires t.queue == StopEvents(p.stop) + MainEvents(run, p.main)
    ensures Stopping(f, d, drv, s, Step(f, drv, t), hold, run, Measure(d, run, p.main, p.stop) - 1)
  {
    hide Step, LogAfter, StopCalls, MessageCalls, MessageClimbs, Stages, Ongoing, Counts;
    HeadReady(f, d, k, t, p);
    var p' := StepMessage(f, d, drv, k, t, p);
    BelongsMessage(drv, s, t, Step(f, drv, t).log, hold, k, p, p');
    MessageCallsKept(drv, s, t, Step(f, drv, t), k, p, p');
    assert Tracked(f, d, drv, s, Step(f, drv, t), hold, run, k, p');
  }

  /** What an event on the way to the requester becomes. */
  ghost function Onwards(main: Main): Main
    requires main.Respond? || main.Deliver? || main.Down?
  {
    match main
    case Respond(status) => Deliver(status)
    case Deliver(status) => Finished(status)
    case Down(k, status) => AfterAnswer(k, status)
  }

  lemma AsideFlies(f: Forest, d: seq<nat>, drv: Driver, k: Track, t: State, p: Phase)
    requires Setting(f, d, k) && Flying(f, d, k, t, p) && (p.main.Respond? || p.main.Deliver? || p.main.Down?)
    requires t.queue == MainEvents(k.run, p.main) + StopEvents(p.stop)
    ensures WellFormed(f, t) && t.queue != []
    ensures Flying(f, d, k, Step(f, drv, t), p.(main := Onwards(p.main))) && Step(f, drv, t).log == t.log
  {
    match p.main
    case Respond(_) => StepRespondAside(f, d, drv, k, t, p);
    case Deliver(_) => StepDeliverAside(f, d, drv, k, t, p);
    case Down(_, _) => StepFailureDown(f, d, drv, k, t, p);
  }

  lemma BelongsAside(drv: Driver, s: State, log: seq<Record>, hold: seq<nat>, k: Track, p: Phase)
    requires k.run.chain != [] && k.run.chain[0] < |s.dev| && k.run.chain[0] < |hold|
    requires Belongs(drv, s, log, hold, k, p)
    requires p.main.Respond? || p.main.Deliver? || p.main.Down?
    ensures Belongs(drv, s, log, hold, k, p.(main := Onwards(p.main)))
  {
  }

  lemma AsideStep(f: Forest, d: seq<nat>, drv: Driver, s: State, t: State, hold: seq<nat>, run: Run, k: Track, p: Phase)
    requires Made(f, d, s, hold, run) && Tracked(f, d, drv, s, t, hold, run, k, p)
    requires t.queue == MainEvents(run, p.main) + StopEvents(p.stop)
    requires p.main.Respond? || p.main.Deliver? || p.main.Down?
    ensures Stopping(f, d, drv, s, Step(f, drv, t), hold, run, Measure(d, run, p.main, p.stop) - 1)
  {
    hide Step, Flying, Belongs, StopPromised, Setting;
    AsideFlies(f, d, drv, k, t, p);
    BelongsAside(drv, s, t.log, hold, k, p);
    TrackedOn(f, d, drv, s, t, Step(f, drv, t), hold, run, k, p, p.(main := Onwards(p.main)));
  }

  lemma TrackedOn(f: Forest, d: seq<nat>, drv: Driver, s: State, t: State, r: State, hold: seq<nat>, run: Run, k: Track,
      p: Phase, p': Phase)
    requires Made(f, d, s, hold, run) && Tracked(f, d, drv, s, t, hold, run, k, p)
    requires Flying(f, d, k, r, p') && Belongs(drv, s, r.log, hold, k, p')
    requires r.log == t.log && p' == p.(main := p'.main)
    ensures Tracked(f, d, drv, s, r, hold, run, k, p')
  {
    hide LogAfter, StopCalls, Flying, Belongs, Setting;
  }

  lemma StoppingStep(f: Forest, d: seq<nat>, drv: Driver, s: State, t: State, hold: seq<nat>, run: Run, m: int)
    requires WellFormed(f, t) && Made(f, d, s, hold, run) && Stopping(f, d, drv, s, t, hold, run, m) && t.queue != []
    ensures InFlight(f, d, drv, s, Step(f, drv, t), hold, run, m - 1)
  {
    var k: Track, p: Phase :| Tracked(f, d, drv, s, t, hold, run, k, p) && Measure(d, run, p.main, p.stop) <= m;
    if p.stop.Stop? && t.queue == StopEvents(p.stop) + MainEvents(run, p.main) {
      MessageStep(f, d, drv, s, t, hold, run, k, p);
    } else {
      AnswerFirst(f, d, k, t, p);
      AsideStep(f, d, drv, s, t, hold, run, k, p);
    }
  }

  /** If the STOP message is not at the head of the queue, the event on the way to the requester is. */
  lemma AnswerFirst(f: Forest, d: seq<nat>, k: Track, t: State, p: Phase)
    requires Setting(f, d, k) && Flying(f, d, k, t, p) && t.queue != []
    requires p.stop.NoStop? || t.queue != StopEvents(p.stop) + MainEvents(k.run, p.main)
    ensures t.queue == MainEvents(k.run, p.main) + StopEvents(p.stop)
    ensures p.main.Respond? || p.main.Deliver? || p.main.Down?
  {
    var answer, stop := MainEvents(k.run, p.main), StopEvents(p.stop);
    assert answer == [] || stop == [] ==> answer + stop == stop + answer;
  }

  /** Every event keeps the request in flight, and the number of events to come decreases. */
  lemma FlightStep(f: Forest, d: seq<nat>, drv: Driver, s: State, t: State, hold: seq<nat>, run: Run, m: int)
    requires InFlight(f, d, drv, s, t, hold, run, m) && t.queue != []
    ensures WellFormed(f, t) && InFlight(f, d, drv, s, Step(f, drv, t), hold, run, m - 1)
  {
    if Starting(f, d, drv, s, t, hold, run, m) {
      StartingStep(f, d, drv, s, t, hold, run, m);
    } else {
      StoppingStep(f, d, drv, s, t, hold, run, m);
    }
  }

  // ---------- at every event ----------

  lemma TrackStops(f: Forest, d: seq<nat>, drv: Driver, s: State, t: State, hold: seq<nat>, run: Run, k: Track,
      p: Phase)
    requires Made(f, d, s, hold, run) && Tracked(f, d, drv, s, t, hold, run, k, p)
    ensures run.from <= |t.log| && StopsFrom(t.log, run.from, run.target) == |k.base.log|
  {
    if k.above > 0 {
      FailedStops(k.base.log, t.log, run.from, StatusSoFar(p.main));
    }
  }

  /** The documented rule, at every event: it holds exactly when refusals to stop reach up. */
  lemma SafeInFlight(f: Forest, d: seq<nat>, drv: Driver, s: State, t: State, hold: seq<nat>, run: Run, m: int)
    requires InFlight(f, d, drv, s, t, hold, run, m)
    ensures run.from <= |t.log|
    ensures TreeSafe(f, t) <==> RefusalsReach(t.log, StopsFrom(t.log, run.from, run.target))
  {
    if Starting(f, d, drv, s, t, hold, run, m) {
      var main: Main :| StartingAt(f, d, drv, s, t, hold, run, main) && Measure(d, run, main, NoStop) <= m;
      CountsSafe(f, t, Extra(hold, run, main, NoStop));
      LateStops(t.log, run.from);
    } else {
      var k: Track, p: Phase :| Tracked(f, d, drv, s, t, hold, run, k, p) && Measure(d, run, p.main, p.stop) <= m;
      TrackStops(f, d, drv, s, t, hold, run, k, p);
      SafeExactly(f, d, k, t, p);
    }
  }

  /** At every event the calls made so far are the first of those foreseen. */
  lemma LogInFlight(f: Forest, d: seq<nat>, drv: Driver, s: State, t: State, hold: seq<nat>, run: Run, m: int)
    requires InFlight(f, d, drv, s, t, hold, run, m)
    ensures Within(run.chain, s.dev) && t.log <= LogAfter(drv, s, run.chain, run.target)
  {
    hide LogAfter;
    if Starting(f, d, drv, s, t, hold, run, m) {
      var main: Main :| StartingAt(f, d, drv, s, t, hold, run, main) && Measure(d, run, main, NoStop) <= m;
    } else {
      var k: Track, p: Phase :| Tracked(f, d, drv, s, t, hold, run, k, p) && Measure(d, run, p.main, p.stop) <= m;
    }
  }

  // ---------- the end ----------

  /**
    No call made the code drop the request, and those of its STOP message succeeded, if it has one, or the query with
    which a stop begins failed, so that nothing has changed.
  */
  ghost predicate Concludes(log: seq<Record>, from: nat, target: nat)
    requires from <= |log|
  {
    && NoneDrops(log[from..])
    && (AllSucceed(log, StopsFrom(log, from, target)) || (target == STOPPED && |log| == from + 1))
  }

  /** The code drops the request at the first call that fails. */
  predicate FailureDropped(log: seq<Record>, from: nat)
    requires from <= |log|
  {
    var q := from + FirstFailing(log[from..]);
    q < |log| && Drops(log[q])
  }

  /** The code drops a start. */
  ghost predicate StartDropped(f: Forest, d: seq<nat>, drv: Driver, s: State, a: nat)
    requires Depths(f, d) && a < |f| == |s.dev|
  {
    FailureDropped(LogOf(f, d, drv, s, a, RUNNING), |s.log|)
  }

  /** The status a start that is not dropped is answered with. */
  ghost function StartAnswer(f: Forest, d: seq<nat>, drv: Driver, s: State, a: nat): int
    requires Depths(f, d) && a < |f| == |s.dev|
  {
    FirstFailure(LogOf(f, d, drv, s, a, RUNNING)[|s.log|..])
  }

  /** The code drops the request. */
  predicate Dropped(drv: Driver, s: State, log: seq<Record>, run: Run)
    requires run.chain != [] && run.chain[0] < |s.dev| && run.from <= |log|
  {
    if run.target == STOPPED then StopDropped(drv, s, run.chain[0]) else FailureDropped(log, run.from)
  }

  /** The status of the response to a request that is not dropped. */
  ghost function Answered(drv: Driver, s: State, log: seq<Record>, run: Run): int
    requires run.chain != [] && run.chain[0] < |s.dev| && run.from <= |log|
  {
    if run.target == STOPPED then StopAnswer(drv, s, run.chain[0]) else FirstFailure(log[run.from..])
  }

  /** What a request leaves behind: the rule, the clocks without references, the answer, and the account. */
  ghost predicate Outcome(f: Forest, drv: Driver, s: State, r: State, hold: seq<nat>, run: Run)
    requires run.chain != [] && run.chain[0] < |s.dev| && run.chain[0] < |hold|
    requires (run.target == STOPPED ==> hold[run.chain[0]] > 0) && Within(run.chain, s.dev)
  {
    && WellFormed(f, r) && run.chain[0] < |f| && r.queue == [] && run.from <= |r.log|
    && var a, q := run.chain[0], StopsFrom(r.log, run.from, run.target);
      var dropped, status := Dropped(drv, s, r.log, run), Answered(drv, s, r.log, run);
      && r.log == LogAfter(drv, s, run.chain, run.target) && CallsClimb(f, r.log, q)
      && (TreeSafe(f, r) <==> RefusalsReach(r.log, q))
      && (forall c: nat :: c < |f| ==> (Orphan(f, r.dev, c) <==> RefusedAt(r.log, q, c)))
      && r.replies == run.replies + (if dropped then [] else [Reply(run.requester, a, status, run.target)])
      && (dropped ==> r.dev[a].ongoing && !Concludes(r.log, run.from, run.target))
      && (!dropped ==> AllIdleIn(r.dev))
      && (!dropped ==> (Counts(f, r.dev, HoldAfter(hold, a, run.target, status)) <==>
                          Concludes(r.log, run.from, run.target)))
      && (Concludes(r.log, run.from, run.target) ==> status == FirstFailure(r.log[run.from..]))
  }

  /** A start that is over without a STOP message. */
  lemma StartEnds(f: Forest, d: seq<nat>, drv: Driver, s: State, r: State, hold: seq<nat>, run: Run, main: Main)
    requires Made(f, d, s, hold, run) && WellFormed(f, r) && r.queue == []
    requires StartingAt(f, d, drv, s, r, hold, run, main)
    ensures Outcome(f, drv, s, r, hold, run)
  {
    hide LogAfter;
    var q := StopsFrom(r.log, run.from, RUNNING);
    LateStops(r.log, run.from);
    CountsSafe(f, r, Extra(hold, run, main, NoStop));
    DroppedLate(r.log, run.from);
    assert main.Finished? || main.Lost?;
    NoOrphans(f, r.dev, Extra(hold, run, main, NoStop), r.log, q);
    if main.Finished? {
      AllIdle(r.dev, run);
      assert Extra(hold, run, main, NoStop) == HoldAfter(hold, run.chain[0], RUNNING, main.status);
    }
  }

  /** When only the last call failed, the request is dropped there or nowhere. */
  lemma DroppedLate(log: seq<Record>, from: nat)
    requires Late(log, from)
    ensures FailureDropped(log, from) <==> !NoneDrops(log[from..])
  {
    var calls := log[from..];
    FailureAt(calls);
    LateStops(log, from);
    forall i | 0 <= i < |calls| && Drops(calls[i])
      ensures i == FirstFailing(calls)
    {
      assert calls[i] == log[from + i];
    }
    if FailureDropped(log, from) {
      assert calls[FirstFailing(calls)] == log[from + FirstFailing(calls)];
    }
  }

  lemma NoOrphans(f: Forest, dev: seq<Dev>, e: seq<nat>, log: seq<Record>, q: nat)
    requires Counts(f, dev, e) && q >= |log|
    ensures forall c: nat :: c < |f| ==> !Orphan(f, dev, c) && !RefusedAt(log, q, c)
  {
    forall c: nat | c < |f|
      ensures !Orphan(f, dev, c)
    {
      assert !IsSingleNode(f, c) ==> (dev[c].running <==> dev[c].refCount > 0);
    }
  }

  /** A request whose STOP message is gone, and with it every event. */
  lemma StopEnds(f: Forest, d: seq<nat>, drv: Driver, s: State, r: State, hold: seq<nat>, run: Run, k: Track, p: Phase)
    requires Made(f, d, s, hold, run) && Tracked(f, d, drv, s, r, hold, run, k, p) && r.queue == []
    ensures Outcome(f, drv, s, r, hold, run)
  {
    TrackStops(f, d, drv, s, r, hold, run, k, p);
    GoneWithQueue(f, d, k, r, p);
    CallsClimbed(f, d, k, r, p);
    SafeExactly(f, d, k, r, p);
    OrphansExactly(f, d, k, r, p);
    StopConcludes(f, d, drv, s, r, hold, run, k, p);
    if p.main.Finished? {
      AllIdle(r.dev, run);
    }
  }

  /** A stop whose own query failed has changed nothing; one whose own driver refused cannot be accounted for. */
  lemma OwnFailure(f: Forest, d: seq<nat>, k: Track, r: State, p: Phase)
    requires Setting(f, d, k) && Flying(f, d, k, r, p) && p.stop.NoStop? && k.above == 0 && !OwnClean(p)
    requires p.main.Finished? || p.main.Lost?
    ensures Counts(f, r.dev, AddAt(k.e, Some(k.chain[0]))) <==> p.stops == []
    ensures p.stops == [] ==> p.more
  {
    if p.stops != [] {
      ToldAccount(f, d, k, r, p, 0);
      assert r.dev[k.chain[0]].running && r.dev[k.chain[0]].refCount == 0;
    }
  }

  lemma GoneWithQueue(f: Forest, d: seq<nat>, k: Track, r: State, p: Phase)
    requires Setting(f, d, k) && Flying(f, d, k, r, p) && r.queue == []
    ensures p.stop.NoStop? && (p.main.Finished? || p.main.Lost?)
  {
  }

  /** The calls of a stop in terms of the log. */
  lemma OwnLog(f: Forest, d: seq<nat>, drv: Driver, s: State, r: State, hold: seq<nat>, run: Run, k: Track, p: Phase)
    requires Made(f, d, s, hold, run) && Tracked(f, d, drv, s, r, hold, run, k, p) && p.stop.NoStop? && k.above == 0
    ensures run.from == |k.base.log| <= |r.log|
    ensures p.stops != [] ==> |r.log| >= run.from + 2
    ensures p.stops == [] ==>
      && r.log[run.from..] == [Record(GetState(run.chain[0], STOPPED), drv(|s.log|, GetState(run.chain[0], STOPPED)))]
      && (p.gave <==> drv(|s.log|, GetState(run.chain[0], STOPPED)) == SUCCESS)
  {
  }

  /** The cases of a request to stop: `e` and `h` tell whether references fit the holds without and with its own. */
  lemma StopCases(log: seq<Record>, from: nat, p: Phase, a: nat, query: int, e: bool, h: bool)
    requires from <= |log| && (p.main.Finished? || p.main.Lost?)
    requires p.stops != [] ==> |log| >= from + 2
    requires p.stops == [] ==>
      p.more && log[from..] == [Record(GetState(a, STOPPED), query)] && (p.gave <==> query == SUCCESS)
    requires (e <==> AllSucceed(log, from)) && (AllSucceed(log, from) <==> Clean(p))
    requires p.main.Finished? ==> (p.main.status == SUCCESS <==> OwnClean(p))
    requires p.main.Lost? ==> !OwnClean(p)
    requires !OwnClean(p) ==> (h <==> p.stops == [])
    requires p.stops == [] && !p.gave ==>
      if p.main.Lost? then query == PENDING else query != PENDING && p.main.status == query
    ensures p.main.Lost? ==> !Concludes(log, from, STOPPED)
    ensures p.main.Finished? ==> ((if p.main.status == SUCCESS then e else h) <==> Concludes(log, from, STOPPED))
    ensures Concludes(log, from, STOPPED) ==> p.main.Finished? && p.main.status == FirstFailure(log[from..])
  {
    AllSuccessful(log[from..]);
    assert forall i :: from <= i < |log| ==> log[from..][i - from] == log[i];
    if p.stops == [] {
      assert log[from..][1..] == [];
    }
  }

  /** The same for a request to stop. */
  lemma StopKindConcludes(f: Forest, d: seq<nat>, drv: Driver, s: State, r: State, hold: seq<nat>, run: Run, k: Track,
      p: Phase)
    requires Made(f, d, s, hold, run) && Tracked(f, d, drv, s, r, hold, run, k, p) && p.stop.NoStop? && k.above == 0
    requires p.main.Finished? || p.main.Lost?
    requires Counts(f, r.dev, k.e) <==> AllSucceed(r.log, |k.base.log|)
    requires AllSucceed(r.log, |k.base.log|) <==> Clean(p)
    ensures run.from <= |r.log|
    ensures p.main.Lost? ==> !Concludes(r.log, run.from, STOPPED)
    ensures p.main.Finished? ==>
      && (Counts(f, r.dev, HoldAfter(hold, run.chain[0], STOPPED, p.main.status)) <==>
            Concludes(r.log, run.from, STOPPED))
      && (Concludes(r.log, run.from, STOPPED) ==> p.main.status == FirstFailure(r.log[run.from..]))
  {
    hide Counts, AllSucceed;
    var a := run.chain[0];
    OwnLog(f, d, drv, s, r, hold, run, k, p);
    assert AddAt(k.e, Some(a)) == hold;
    if !OwnClean(p) {
      OwnFailure(f, d, k, r, p);
    }
    StopCases(r.log, run.from, p, a, drv(|s.log|, GetState(a, STOPPED)), Counts(f, r.dev, k.e), Counts(f, r.dev, hold));
  }

  /** Whether the request concludes, with which status, and how the references are accounted for. */
  lemma StopConcludes(f: Forest, d: seq<nat>, drv: Driver, s: State, r: State, hold: seq<nat>, run: Run, k: Track,
      p: Phase)
    requires Made(f, d, s, hold, run) && Tracked(f, d, drv, s, r, hold, run, k, p) && p.stop.NoStop?
    requires run.from <= |r.log| && StopsFrom(r.log, run.from, run.target) == |k.base.log|
    requires p.main.Finished? || p.main.Lost?
    ensures Dropped(drv, s, r.log, run) <==> p.main.Lost?
    ensures p.main.Lost? ==> !Concludes(r.log, run.from, run.target)
    ensures p.main.Finished? ==>
      && Answered(drv, s, r.log, run) == p.main.status
      && (Counts(f, r.dev, HoldAfter(hold, run.chain[0], run.target, p.main.status)) <==>
            Concludes(r.log, run.from, run.target))
      && (Concludes(r.log, run.from, run.target) ==> p.main.status == FirstFailure(r.log[run.from..]))
  {
    AccountedExactly(f, d, k, r, p);
    SucceedExactly(r.log, k, p);
    if k.above == 0 {
      StopKindConcludes(f, d, drv, s, r, hold, run, k, p);
    } else {
      var before := k.base.log;
      FailedStops(before, r.log, run.from, p.main.status);
      FailedNotDropped(before, r.log, run.from, p.main.status);
    }
  }

  lemma FailedNotDropped(before: seq<Record>, log: seq<Record>, from: nat, status: int)
    requires FailedLast(before, from, status) && |before| <= |log| && log[..|before|] == before
    ensures !FailureDropped(log, from)
    ensures AllSucceed(log, |before|) ==> NoneDrops(log[from..])
  {
    FailedStops(before, log, from, status);
    var q := from + FirstFailing(log[from..]);
    assert q == |before| - 1 && log[q] == before[q] == before[from..][q - from];
    if AllSucceed(log, |before|) {
      forall i | 0 <= i < |log[from..]|
        ensures !Drops(log[from..][i])
      {
        if from + i < |before| {
          assert log[from + i] == log[..|before|][from + i] == before[from..][i];
        }
      }
    }
  }

  lemma FlightEnds(f: Forest, d: seq<nat>, drv: Driver, s: State, r: State, hold: seq<nat>, run: Run, m: int)
    requires InFlight(f, d, drv, s, r, hold, run, m) && r.queue == []
    ensures Outcome(f, drv, s, r, hold, run)
  {
    if Starting(f, d, drv, s, r, hold, run, m) {
      var main: Main :| StartingAt(f, d, drv, s, r, hold, run, main) && Measure(d, run, main, NoStop) <= m;
      StartEnds(f, d, drv, s, r, hold, run, main);
    } else {
      var k: Track, p: Phase :| Tracked(f, d, drv, s, r, hold, run, k, p) && Measure(d, run, p.main, p.stop) <= m;
      StopEnds(f, d, drv, s, r, hold, run, k, p);
    }
  }

  lemma FlightNotOver(f: Forest, d: seq<nat>, drv: Driver, s: State, t: State, hold: seq<nat>, run: Run, m: int)
    requires InFlight(f, d, drv, s, t, hold, run, m) && m <= 0
    ensures t.queue == []
  {
    if Starting(f, d, drv, s, t, hold, run, m) {
      var main: Main :| StartingAt(f, d, drv, s, t, hold, run, main) && Measure(d, run, main, NoStop) <= m;
      Measured(d, t, run, main, NoStop);
    } else {
      var k: Track, p: Phase :| Tracked(f, d, drv, s, t, hold, run, k, p) && Measure(d, run, p.main, p.stop) <= m;
      Measured(d, t, run, p.main, p.stop);
    }
  }

  lemma Measured(d: seq<nat>, t: State, run: Run, main: Main, stop: Stop)
    requires run.chain != [] && (stop.Stop? ==> stop.at < |d|) && (main.Climb? ==> main.k < |run.chain|)
    requires QueueShape(t.queue, run, main, stop) && Measure(d, run, main, stop) <= 0
    ensures t.queue == []
  {
  }
}
