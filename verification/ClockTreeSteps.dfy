/** Every event of a start keeps the invariant of the request and decreases its measure, under every driver. */
module ClockTreeSteps {
  import opened FwkStatus
  import opened ClockTree
  import opened ClockTreeInvariant

  /** The chain position after clock `k` has answered. */
  function AfterAnswer(k: nat, status: int): Main {
    if k == 0 then Respond(status) else Down(k - 1, status)
  }

  // ---------- keeping the stages ----------

  /** Clock `k` of the chain starts to wait. */
  lemma StagesPush(f: Forest, dev: seq<Dev>, run: Run, k: nat)
    requires Stages(dev, run, k) && k < |run.chain| && IsLevels(f, run.chain, run.level)
    requires !dev[run.chain[k]].running && (k > 0 ==> dev[run.chain[k]].caller == Clock(run.chain[k - 1]))
    ensures Stages(dev[run.chain[k] := dev[run.chain[k]].(stage := WaitParent)], run, k + 1)
  {
    assert run.level[run.chain[k]] == k;
  }

  /** Clock `k` of the chain, the last that waits, stops waiting. */
  lemma StagesPop(f: Forest, dev: seq<Dev>, x: Dev, run: Run, k: nat)
    requires Stages(dev, run, k + 1) && IsLevels(f, run.chain, run.level)
    requires x.stage.Idle?
    ensures Stages(dev[run.chain[k] := x], run, k)
  {
    assert run.level[run.chain[k]] == k;
  }

  /** A change at an idle clock leaves the stages alone. */
  lemma StagesKept(dev: seq<Dev>, c: nat, x: Dev, run: Run, w: nat)
    requires Stages(dev, run, w) && c < |dev| && dev[c].stage.Idle? && x.stage.Idle?
    ensures Stages(dev[c := x], run, w)
  {
  }

  // ---------- keeping the rest ----------

  lemma {:induction false} AllSuccessful(log: seq<Record>)
    ensures FirstFailure(log) == SUCCESS <==> forall i :: 0 <= i < |log| ==> log[i].status == SUCCESS
    decreases |log|
  {
    if log == [] {
    } else {
      AllSuccessful(log[1..]);
      assert forall i :: 1 <= i < |log| ==> log[i] == log[1..][i - 1];
      assert forall i :: 0 <= i < |log[1..]| ==> log[1..][i] == log[i + 1];
    }
  }

  lemma AddAtRoom(e: seq<nat>, at: Option<nat>, c: nat)
    requires c < |e|
    ensures AddAt(e, at)[c] <= e[c] + 1
  {
  }

  /** Counters never wrap while a request is in flight. */
  lemma RefRoom(f: Forest, dev: seq<Dev>, hold: seq<nat>, run: Run, main: Main, stop: Stop, c: nat)
    requires Fits(f, hold) && run.chain != [] && Counts(f, dev, Extra(hold, run, main, stop)) && c < |f|
    ensures dev[c].refCount + 1 < TWO32
  {
    var h := HoldNow(hold, run, main);
    AddAtRoom(hold, Some(run.chain[0]), c);
    AddAtRoom(h, Ack(run, main), c);
    AddAtRoom(AddAt(h, Ack(run, main)), if stop.Stop? then Some(stop.at) else None, c);
    KidsBound(f, dev, c);
  }

  /** A clock on a chain is never a single node. */
  lemma ChainNotSingle(f: Forest, d: seq<nat>, chain: seq<nat>, k: nat)
    requires IsChain(f, d, chain) && k < |chain| && !IsSingleNode(f, chain[0])
    ensures !IsSingleNode(f, chain[k])
  {
    if k > 0 {
      assert f[chain[k - 1]] == Some(chain[k]);
    }
  }

  /** One more driver call in the log. */
  lemma LogOne(log: seq<Record>, from: nat, rec: Record, status: int)
    requires Told(log, from, status)
    ensures !Drops(rec) ==> Told(log + [rec], from, if status != SUCCESS then status else rec.status)
    ensures NoneDrops((log + [rec])[from..]) <==> !Drops(rec)
  {
    var old_, new_ := log[from..], (log + [rec])[from..];
    assert new_ == old_ + [rec];
    assert new_[|old_|] == rec;
    FirstFailureAppend(old_, rec);
  }

  /** The requested clock answers (k == 0) or another one does; the bookkeeping of the request follows. */
  lemma OngoingAnswer(dev: seq<Dev>, run: Run, c: nat, x: Dev, last: bool)
    requires run.chain != [] && c < |dev| && Ongoing(dev, run, true, true)
    requires x.ongoing == dev[c].ongoing && x.delayed == dev[c].delayed && x.cookie == dev[c].cookie
    requires !x.initiator && (last <==> c == run.chain[0])
    ensures Ongoing(dev[c := x], run, !last, true)
  {
  }

  lemma OngoingKept(dev: seq<Dev>, run: Run, c: nat, x: Dev, unanswered: bool, live: bool)
    requires run.chain != [] && c < |dev| && Ongoing(dev, run, unanswered, live)
    requires x.ongoing == dev[c].ongoing && x.delayed == dev[c].delayed && x.cookie == dev[c].cookie
    requires x.initiator == dev[c].initiator
    ensures Ongoing(dev[c := x], run, unanswered, live)
  {
  }

  /** The shape of a completed response: one clock changes, one event at most is queued. */
  lemma CompleteForm(s: State, c: nat, targetState: nat, status: int) returns (r: State)
    requires c < |s.dev|
    ensures r == CompleteResponse(s, c, targetState, status)
    ensures r.dev == s.dev[c := s.dev[c].(stage := Idle, initiator := false)]
    ensures r.log == s.log && r.replies == s.replies
    ensures r.queue == s.queue +
        if s.dev[c].initiator then [Response(c, status, targetState)]
        else if targetState != STOPPED then [PreRequest(Clock(c), s.dev[c].caller, targetState, status)]
        else []
  {
    r := CompleteResponse(s, c, targetState, status);
    var x := s.dev[c].(stage := Idle);
    if !x.initiator {
      assert x == x.(initiator := false);
      if targetState == STOPPED {
        assert s.queue + [] == s.queue;
      }
    }
  }

  /** What clock `k` of the chain sends when it answers. */
  lemma AnswerEvents(f: Forest, d: seq<nat>, run: Run, k: nat, status: int, initiator: bool, caller: Entity)
    requires IsLevels(f, run.chain, run.level) && k < |run.chain| && run.target == RUNNING
    requires initiator <==> run.chain[k] == run.chain[0]
    requires k > 0 ==> caller == Clock(run.chain[k - 1])
    ensures initiator <==> k == 0
    ensures MainEvents(run, AfterAnswer(k, status)) ==
      if initiator then [Response(run.chain[k], status, RUNNING)]
      else [PreRequest(Clock(run.chain[k]), caller, RUNNING, status)]
  {
    assert run.level[run.chain[k]] == k && run.level[run.chain[0]] == 0;
  }

  /** Clock `k` of the chain answers; `u` is the state before the answer is sent, its accounts already final. */
  lemma {:induction false} Answers(f: Forest, d: seq<nat>, u: State, hold: seq<nat>, run: Run, k: nat, status: int,
      stop: Stop)
    requires Fixed(f, d, hold, run) && k < |run.chain| && run.target == RUNNING && |u.dev| == |f|
    requires stop.Stop? ==> stop.at < |f| && !IsSingleNode(f, stop.at) && status != SUCCESS
    requires u.queue == StopEvents(stop) && u.replies == run.replies
    requires Ongoing(u.dev, run, true, true)
    requires Stages(u.dev[run.chain[k] := u.dev[run.chain[k]].(stage := Idle, initiator := false)], run, k)
    requires k > 0 ==> u.dev[run.chain[k]].caller == Clock(run.chain[k - 1])
    requires Told(u.log, run.from, status)
    requires Counts(f, u.dev, Extra(hold, run, AfterAnswer(k, status), stop))
    ensures Inv(f, d, CompleteResponse(u, run.chain[k], RUNNING, status), hold, run, AfterAnswer(k, status), stop)
  {
    var c := run.chain[k];
    var r := CompleteForm(u, c, RUNNING, status);
    AnswerEvents(f, d, run, k, status, u.dev[c].initiator, u.dev[c].caller);
    assert r.queue == StopEvents(stop) + MainEvents(run, AfterAnswer(k, status));
    CountsKept(f, u.dev, r.dev, Extra(hold, run, AfterAnswer(k, status), stop));
    OngoingAnswer(u.dev, run, c, u.dev[c].(stage := Idle, initiator := false), k == 0);
  }

  lemma AloneInQueue(run: Run, main: Main)
    requires run.chain != []
    ensures QueueShape(MainEvents(run, main), run, main, NoStop)
  {
    assert MainEvents(run, main) + StopEvents(NoStop) == MainEvents(run, main);
  }

  // ---------- a request climbing ----------

  /** Clock `k` of the chain is idle and its driver has just reported its state. */
  ghost predicate Asked(f: Forest, t: State, hold: seq<nat>, run: Run, k: nat) {
    && k < |run.chain| && run.target == RUNNING && run.chain[k] < |t.dev| == |f|
    && t.queue == []
    && t.replies == run.replies
    && Counts(f, t.dev, hold)
    && Stages(t.dev, run, k)
    && Ongoing(t.dev, run, true, true)
    && t.dev[run.chain[k]].stage.Idle?
    && t.dev[run.chain[k]].refCount + 1 < TWO32
    && (k > 0 ==> t.dev[run.chain[k]].caller == Clock(run.chain[k - 1]))
  }

  /** The extra references once clock `k` has answered a request that climbed to it. */
  lemma ExtraAfterAnswer(hold: seq<nat>, run: Run, k: nat, status: int)
    requires k < |run.chain| && run.chain[k] < |hold| && run.target == RUNNING
    ensures Extra(hold, run, AfterAnswer(k, status), NoStop) ==
      if status == SUCCESS then hold[run.chain[k] := hold[run.chain[k]] + 1] else hold
  {
  }

  lemma UpdateTwice(dev: seq<Dev>, c: nat, x: Dev, y: Dev)
    requires c < |dev|
    ensures dev[c := x][c := y] == dev[c := y]
  {
  }

  /** Clock `k` answers with its final account; `u` is the state before the answer. */
  lemma ClimbAnswers(f: Forest, d: seq<nat>, t: State, u: State, x: Dev, hold: seq<nat>, run: Run, k: nat, status: int)
    requires Fixed(f, d, hold, run) && Asked(f, t, hold, run, k)
    requires u.queue == [] && u.replies == t.replies && u.dev == t.dev[run.chain[k] := x]
    requires x == t.dev[run.chain[k]].(running := x.running, refCount := x.refCount)
    requires Told(u.log, run.from, status)
    requires Counts(f, u.dev, Extra(hold, run, AfterAnswer(k, status), NoStop))
    ensures Inv(f, d, CompleteResponse(u, run.chain[k], RUNNING, status), hold, run, AfterAnswer(k, status), NoStop)
  {
    var c := run.chain[k];
    var y := x.(stage := Idle, initiator := false);
    UpdateTwice(t.dev, c, x, y);
    StagesKept(t.dev, c, y, run, k);
    OngoingKept(t.dev, run, c, x, true, true);
    Answers(f, d, u, hold, run, k, status, NoStop);
  }

  lemma ClimbMeetsRunning(f: Forest, d: seq<nat>, t: State, hold: seq<nat>, run: Run, k: nat)
    requires Fixed(f, d, hold, run) && Asked(f, t, hold, run, k) && t.dev[run.chain[k]].running
    requires Told(t.log, run.from, SUCCESS)
    ensures var c := run.chain[k];
      Inv(f, d, CompleteResponse(SetRef(t, c, Increment(t.dev[c].refCount)), c, RUNNING, SUCCESS),
          hold, run, AfterAnswer(k, SUCCESS), NoStop)
  {
    var c := run.chain[k];
    var u := SetRef(t, c, Increment(t.dev[c].refCount));
    var x := t.dev[c].(refCount := t.dev[c].refCount + 1);
    assert u.dev == t.dev[c := x];
    ExtraAfterAnswer(hold, run, k, SUCCESS);
    CountsShift(f, t.dev, u.dev, hold, c, x.refCount);
    ClimbAnswers(f, d, t, u, x, hold, run, k, SUCCESS);
  }

  lemma ClimbStartsRoot(f: Forest, d: seq<nat>, t: State, u: State, hold: seq<nat>, run: Run, k: nat)
    requires Fixed(f, d, hold, run) && Asked(f, t, hold, run, k)
    requires !t.dev[run.chain[k]].running && f[run.chain[k]].None?
    requires u == t.(log := u.log, dev := t.dev[run.chain[k] := t.dev[run.chain[k]].(running := true)])
    requires Told(u.log, run.from, SUCCESS)
    ensures var c := run.chain[k];
      Inv(f, d, CompleteResponse(SetRef(u, c, Increment(u.dev[c].refCount)), c, RUNNING, SUCCESS),
          hold, run, AfterAnswer(k, SUCCESS), NoStop)
  {
    var c := run.chain[k];
    ChainNotSingle(f, d, run.chain, k);
    var x := t.dev[c].(running := true, refCount := 1);
    var v := SetRef(u, c, Increment(u.dev[c].refCount));
    assert t.dev[c].refCount == 0;
    UpdateTwice(t.dev, c, u.dev[c], x);
    assert v.dev == t.dev[c := x];
    CountsStart(f, t.dev, v.dev, hold, c);
    ExtraAfterAnswer(hold, run, k, SUCCESS);
    ClimbAnswers(f, d, t, v, x, hold, run, k, SUCCESS);
  }

  /** A driver answer makes the code drop the request at clock `k`: nothing is sent, and the clock stays busy. */
  lemma ClimbLost(f: Forest, d: seq<nat>, t: State, u: State, hold: seq<nat>, run: Run, k: nat)
    requires Fixed(f, d, hold, run) && Asked(f, t, hold, run, k) && u == t.(log := u.log)
    requires run.from <= |u.log| && !NoneDrops(u.log[run.from..])
    ensures Inv(f, d, u, hold, run, Lost(k, None), NoStop)
  {
    AloneInQueue(run, Lost(k, None));
    assert Extra(hold, run, Lost(k, None), NoStop) == hold;
  }

  /** What clock `k` of the chain asks its driver when a start has climbed to it: `n` calls were made before. */
  function ClimbRecords(f: Forest, drv: Driver, n: nat, c: nat, running: bool): seq<Record>
    requires c < |f|
  {
    var query := Record(GetState(c, RUNNING), drv(n, GetState(c, RUNNING)));
    if query.status == SUCCESS && !running && f[c].None? then
      [query, Record(SetState(c, RUNNING), drv(n + 1, SetState(c, RUNNING)))]
    else
      [query]
  }

  /** A clock has made the last of its calls, which decides its answer. */
  function AfterCalls(k: nat, last: Record, ack: Option<nat>): Main {
    if Drops(last) then Lost(if ack.Some? then k + 1 else k, ack) else AfterAnswer(k, last.status)
  }

  /** Where the start is after clock `k` has been asked. */
  function ClimbMain(f: Forest, drv: Driver, n: nat, c: nat, running: bool, k: nat): Main
    requires c < |f|
  {
    var calls := ClimbRecords(f, drv, n, c, running);
    if calls[0].status == SUCCESS && !running && f[c].Some? then Climb(k + 1)
    else AfterCalls(k, calls[|calls| - 1], None)
  }

  lemma {:induction false} ClimbAtRoot(f: Forest, d: seq<nat>, drv: Driver, t: State, hold: seq<nat>, run: Run, k: nat)
      returns (main': Main)
    requires Fixed(f, d, hold, run) && Asked(f, t, hold, run, k) && WellFormed(f, t)
    requires Told(t.log, run.from, SUCCESS)
    requires !t.dev[run.chain[k]].running && f[run.chain[k]].None?
    ensures Inv(f, d, IdleStart(f, drv, t, run.chain[k], SUCCESS), hold, run, main', NoStop)
    ensures Measure(d, run, main', NoStop) < Measure(d, run, Climb(k), NoStop)
    ensures var rec := Record(SetState(run.chain[k], RUNNING), drv(|t.log|, SetState(run.chain[k], RUNNING)));
      main' == AfterCalls(k, rec, None) && IdleStart(f, drv, t, run.chain[k], SUCCESS).log == t.log + [rec]
  {
    hide Counts, QueueShape, Stages, Ongoing, WellFormed;
    var c := run.chain[k];
    var call := SetState(c, RUNNING);
    var status := drv(|t.log|, call);
    var u := AfterCall(drv, t, call);
    LogOne(t.log, run.from, Record(call, status), SUCCESS);
    if Drops(Record(call, status)) {
      main' := Lost(k, None);
      ClimbLost(f, d, t, u, hold, run, k);
    } else if status == SUCCESS {
      main' := AfterAnswer(k, status);
      ClimbStartsRoot(f, d, t, u, hold, run, k);
    } else {
      main' := AfterAnswer(k, status);
      ExtraAfterAnswer(hold, run, k, status);
      ClimbAnswers(f, d, t, u, t.dev[c], hold, run, k, status);
    }
  }

  lemma ClimbOn(f: Forest, d: seq<nat>, t: State, hold: seq<nat>, run: Run, k: nat)
    requires Fixed(f, d, hold, run) && Asked(f, t, hold, run, k)
    requires Told(t.log, run.from, SUCCESS)
    requires !t.dev[run.chain[k]].running && f[run.chain[k]].Some?
    ensures k + 1 < |run.chain|
    ensures var c := run.chain[k];
      Inv(f, d, SendSet(t.(dev := t.dev[c := t.dev[c].(stage := WaitParent)]), c, Clock(f[c].value), RUNNING, SUCCESS),
          hold, run, Climb(k + 1), NoStop)
  {
    var c := run.chain[k];
    assert k + 1 < |run.chain|;
    assert f[c] == Some(run.chain[k + 1]);
    var x := t.dev[c].(stage := WaitParent);
    var r := SendSet(t.(dev := t.dev[c := x]), c, Clock(f[c].value), RUNNING, SUCCESS);
    assert r.queue == MainEvents(run, Climb(k + 1));
    AloneInQueue(run, Climb(k + 1));
    CountsKept(f, t.dev, r.dev, hold);
    StagesPush(f, t.dev, run, k);
    OngoingKept(t.dev, run, c, x, true, true);
  }

  lemma ClimbAsked(f: Forest, d: seq<nat>, s: State, t: State, hold: seq<nat>, run: Run, k: nat, source: Entity)
    requires Fixed(f, d, hold, run) && Inv(f, d, s, hold, run, Climb(k), NoStop)
    requires source == if k == 0 then run.requester else Clock(run.chain[k - 1])
    requires t == s.(queue := [], log := t.log,
                     dev := s.dev[run.chain[k] := s.dev[run.chain[k]].(caller := source)])
    ensures Asked(f, t, hold, run, k)
    ensures s.dev[run.chain[k]].stage.Idle?
  {
    var c := run.chain[k];
    assert run.level[c] == k;
    assert Extra(hold, run, Climb(k), NoStop) == hold;
    RefRoom(f, s.dev, hold, run, Climb(k), NoStop, c);
    CountsKept(f, s.dev, t.dev, hold);
    StagesKept(s.dev, c, t.dev[c], run, k);
    OngoingKept(s.dev, run, c, t.dev[c], true, true);
  }

  /** The query with which a clock begins that a start has reached. */
  lemma ClimbQueried(f: Forest, d: seq<nat>, drv: Driver, s: State, hold: seq<nat>, run: Run, k: nat)
      returns (t: State, g: int)
    requires WellFormed(f, s)
    requires Fixed(f, d, hold, run) && Inv(f, d, s, hold, run, Climb(k), NoStop)
    ensures WellFormed(f, t) && Asked(f, t, hold, run, k)
    ensures var c := run.chain[k];
      && g == drv(|s.log|, GetState(c, RUNNING)) && t.log == s.log + [Record(GetState(c, RUNNING), g)]
      && t.dev[c].running == s.dev[c].running
      && s.queue != [] && Step(f, drv, s) == ClimbTo(f, drv, t, c, g)
    ensures if g == PENDING then run.from <= |t.log| && !NoneDrops(t.log[run.from..]) else Told(t.log, run.from, g)
  {
    var c := run.chain[k];
    var source := if k == 0 then run.requester else Clock(run.chain[k - 1]);
    assert s.queue == [PreRequest(source, Clock(c), RUNNING, SUCCESS)];
    var s0 := s.(queue := [], dev := s.dev[c := s.dev[c].(caller := source)]);
    var call := GetState(c, RUNNING);
    g := drv(|s.log|, call);
    t := AfterCall(drv, s0, call);
    LogOne(s.log, run.from, Record(call, g), SUCCESS);
    ClimbAsked(f, d, s, t, hold, run, k, source);
  }

  lemma StepClimb(f: Forest, d: seq<nat>, drv: Driver, s: State, hold: seq<nat>, run: Run, k: nat)
      returns (main': Main)
    requires WellFormed(f, s)
    requires Fixed(f, d, hold, run) && Inv(f, d, s, hold, run, Climb(k), NoStop)
    ensures s.queue != [] && Inv(f, d, Step(f, drv, s), hold, run, main', NoStop)
    ensures Measure(d, run, main', NoStop) < Measure(d, run, Climb(k), NoStop)
    ensures var c := run.chain[k];
      && main' == ClimbMain(f, drv, |s.log|, c, s.dev[c].running, k)
      && Step(f, drv, s).log == s.log + ClimbRecords(f, drv, |s.log|, c, s.dev[c].running)
  {
    hide Step, Counts, Stages, Ongoing, Told, QueueShape;
    var t, g := ClimbQueried(f, d, drv, s, hold, run, k);
    if g == PENDING {
      main' := Lost(k, None);
      ClimbLost(f, d, t, t, hold, run, k);
    } else {
      main' := ClimbOutcome(f, d, drv, t, hold, run, k, g);
    }
  }

  /** What an idle clock does with a RUNNING request when its query is answered with `g`. */
  function ClimbTo(f: Forest, drv: Driver, t: State, c: nat, g: int): State
    requires WellFormed(f, t) && c < |f|
  {
    if g == PENDING then
      t
    else if g != SUCCESS then
      CompleteResponse(t, c, RUNNING, g)
    else
      IdleStart(f, drv, t, c, SUCCESS)
  }

  lemma ClimbOutcome(f: Forest, d: seq<nat>, drv: Driver, t: State, hold: seq<nat>, run: Run, k: nat, g: int)
      returns (main': Main)
    requires WellFormed(f, t) && g != PENDING
    requires Fixed(f, d, hold, run) && Asked(f, t, hold, run, k) && Told(t.log, run.from, g)
    ensures Inv(f, d, ClimbTo(f, drv, t, run.chain[k], g), hold, run, main', NoStop)
    ensures Measure(d, run, main', NoStop) < Measure(d, run, Climb(k), NoStop)
    ensures var c := run.chain[k];
      var rec := Record(SetState(c, RUNNING), drv(|t.log|, SetState(c, RUNNING)));
      var starts, climbs := g == SUCCESS && !t.dev[c].running && f[c].None?, g == SUCCESS && !t.dev[c].running;
      && main' == (if starts then AfterCalls(k, rec, None) else if climbs then Climb(k + 1) else AfterAnswer(k, g))
      && ClimbTo(f, drv, t, c, g).log == t.log + if starts then [rec] else []
  {
    var c := run.chain[k];
    if g != SUCCESS {
      main' := AfterAnswer(k, g);
      ExtraAfterAnswer(hold, run, k, g);
      ClimbAnswers(f, d, t, t, t.dev[c], hold, run, k, g);
    } else if t.dev[c].running {
      main' := AfterAnswer(k, SUCCESS);
      ClimbMeetsRunning(f, d, t, hold, run, k);
    } else if f[c].None? {
      main' := ClimbAtRoot(f, d, drv, t, hold, run, k);
    } else {
      main' := Climb(k + 1);
      ClimbOn(f, d, t, hold, run, k);
    }
  }

  // ---------- a reply coming down ----------

  /** A start has failed: the failure goes on down, and a STOP message climbs from level `above`. */
  ghost predicate TurnsBack(run: Run, above: nat, main: Main, stop: Stop) {
    && 0 < above < |run.chain| && stop.Stop? && stop.at == run.chain[above]
    && main == AfterAnswer(above - 1, if main.Respond? || main.Down? then main.status else SUCCESS)
    && (main.Respond? || main.Down?) && main.status != SUCCESS
  }

  /** One event of a start asks its driver at most for its state and, if that is told, to run. */
  ghost predicate Grown(before: seq<Record>, log: seq<Record>) {
    && |before| <= |log| <= |before| + 2 && before == log[..|before|]
    && (|log| == |before| + 2 ==> log[|before|].status == SUCCESS)
  }

  /** The last waiting clock of the chain has received the reply of its parent. */
  lemma DownReady(f: Forest, d: seq<nat>, s: State, hold: seq<nat>, run: Run, k: nat, status: int, stop: Stop)
    requires Fixed(f, d, hold, run) && Inv(f, d, s, hold, run, Down(k, status), stop)
    ensures var c := run.chain[k];
      && s.dev[c].stage.WaitParent? && !s.dev[c].running && s.dev[c].refCount == 0
      && (k > 0 ==> s.dev[c].caller == Clock(run.chain[k - 1]))
      && !IsSingleNode(f, c)
      && f[c] == Some(run.chain[k + 1]) && c != run.chain[k + 1]
  {
    var c := run.chain[k];
    assert run.level[c] == k && run.level[run.chain[k + 1]] == k + 1;
    ChainNotSingle(f, d, run.chain, k);
  }

  lemma DownPasses(f: Forest, d: seq<nat>, s: State, hold: seq<nat>, run: Run, k: nat, status: int, stop: Stop)
    requires Fixed(f, d, hold, run) && Inv(f, d, s, hold, run, Down(k, status), stop) && status != SUCCESS
    ensures Inv(f, d, CompleteResponse(s.(queue := StopEvents(stop)), run.chain[k], RUNNING, status),
                hold, run, AfterAnswer(k, status), stop)
  {
    var c := run.chain[k];
    DownReady(f, d, s, hold, run, k, status, stop);
    StagesPop(f, s.dev, s.dev[c].(stage := Idle, initiator := false), run, k);
    Answers(f, d, s.(queue := StopEvents(stop)), hold, run, k, status, stop);
  }

  /** The waiting clock starts: the reference its parent took for it is now the running child. */
  lemma DownStarts(f: Forest, d: seq<nat>, s: State, u: State, hold: seq<nat>, run: Run, k: nat)
    requires Fixed(f, d, hold, run) && Inv(f, d, s, hold, run, Down(k, SUCCESS), NoStop)
    requires u == s.(queue := [], log := u.log, dev := s.dev[run.chain[k] := s.dev[run.chain[k]].(running := true)])
    requires Told(u.log, run.from, SUCCESS)
    ensures var c := run.chain[k];
      Inv(f, d, CompleteResponse(SetRef(u, c, Increment(u.dev[c].refCount)), c, RUNNING, SUCCESS),
          hold, run, AfterAnswer(k, SUCCESS), NoStop)
  {
    var c := run.chain[k];
    DownReady(f, d, s, hold, run, k, SUCCESS, NoStop);
    var x := s.dev[c].(running := true, refCount := 1);
    var y := x.(stage := Idle, initiator := false);
    var v := SetRef(u, c, 1);
    UpdateTwice(s.dev, c, u.dev[c], x);
    UpdateTwice(s.dev, c, x, y);
    DownAccount(f, d, s.dev, v.dev, hold, run, k);
    StagesPop(f, s.dev, y, run, k);
    OngoingKept(s.dev, run, c, x, true, true);
    Answers(f, d, v, hold, run, k, SUCCESS, NoStop);
  }

  lemma DownAccount(f: Forest, d: seq<nat>, dev: seq<Dev>, dev': seq<Dev>, hold: seq<nat>, run: Run, k: nat)
    requires Fixed(f, d, hold, run) && k + 1 < |run.chain| && run.target == RUNNING
    requires Counts(f, dev, Extra(hold, run, Down(k, SUCCESS), NoStop))
    requires !IsSingleNode(f, run.chain[k]) && !dev[run.chain[k]].running && Changed(dev, dev', run.chain[k], true, 1)
    requires f[run.chain[k]] == Some(run.chain[k + 1]) && run.chain[k] != run.chain[k + 1]
    ensures Counts(f, dev', Extra(hold, run, AfterAnswer(k, SUCCESS), NoStop))
  {
    var c, p := run.chain[k], run.chain[k + 1];
    var e := Extra(hold, run, Down(k, SUCCESS), NoStop);
    assert e == hold[p := hold[p] + 1];
    CountsStart(f, dev, dev', e, c);
    assert e[p := e[p] - 1] == hold;
    ExtraAfterAnswer(hold, run, k, SUCCESS);
  }

  /** The waiting clock fails to start: the reference its parent took becomes a STOP message. */
  lemma {:induction false} DownFails(f: Forest, d: seq<nat>, s: State, u: State, hold: seq<nat>, run: Run, k: nat,
      status: int)
    requires Fixed(f, d, hold, run) && Inv(f, d, s, hold, run, Down(k, SUCCESS), NoStop) && status != SUCCESS
    requires u == s.(queue := [], log := u.log)
    requires Told(u.log, run.from, status)
    ensures var c, p := run.chain[k], run.chain[k + 1];
      Inv(f, d, CompleteResponse(SendSet(u, c, Clock(p), STOPPED, status), c, RUNNING, status),
          hold, run, AfterAnswer(k, status), Stop(p, Clock(c), status))
  {
    var c, p := run.chain[k], run.chain[k + 1];
    var stop := Stop(p, Clock(c), status);
    DownReady(f, d, s, hold, run, k, SUCCESS, NoStop);
    var v := SendSet(u, c, Clock(p), STOPPED, status);
    assert v.queue == StopEvents(stop);
    ChainNotSingle(f, d, run.chain, k + 1);
    StagesPop(f, s.dev, s.dev[c].(stage := Idle, initiator := false), run, k);
    Answers(f, d, v, hold, run, k, status, stop);
  }

  /** The code drops the request at the waiting clock: its parent keeps the reference it took for it. */
  lemma {:induction false} DownLost(f: Forest, d: seq<nat>, s: State, u: State, hold: seq<nat>, run: Run, k: nat)
    requires Fixed(f, d, hold, run) && Inv(f, d, s, hold, run, Down(k, SUCCESS), NoStop)
    requires u == s.(queue := [], log := u.log) && run.from <= |u.log| && !NoneDrops(u.log[run.from..])
    ensures Inv(f, d, u, hold, run, Lost(k + 1, Some(run.chain[k + 1])), NoStop)
  {
    var main' := Lost(k + 1, Some(run.chain[k + 1]));
    AloneInQueue(run, main');
    assert Extra(hold, run, main', NoStop) == Extra(hold, run, Down(k, SUCCESS), NoStop);
  }

  /** The waiting clock, told to start. */
  lemma DownCalled(f: Forest, d: seq<nat>, drv: Driver, s: State, hold: seq<nat>, run: Run, k: nat)
      returns (main': Main, stop': Stop)
    requires WellFormed(f, s) && Fixed(f, d, hold, run) && Inv(f, d, s, hold, run, Down(k, SUCCESS), NoStop)
    requires f[run.chain[k]] == Some(run.chain[k + 1])
    ensures stop'.Stop? ==> TurnsBack(run, k + 1, main', stop')
    ensures var rec := Record(SetState(run.chain[k], RUNNING), drv(|s.log|, SetState(run.chain[k], RUNNING)));
      && main' == AfterCalls(k, rec, Some(run.chain[k + 1]))
      && (stop'.Stop? <==> rec.status != SUCCESS && !Drops(rec))
      && ParentReply(f, drv, s.(queue := []), run.chain[k], RUNNING, SUCCESS).log == s.log + [rec]
    ensures Inv(f, d, ParentReply(f, drv, s.(queue := []), run.chain[k], RUNNING, SUCCESS), hold, run, main', stop')
    ensures Measure(d, run, main', stop') < Measure(d, run, Down(k, SUCCESS), NoStop)
  {
    var c, p := run.chain[k], run.chain[k + 1];
    var call := SetState(c, RUNNING);
    var answer := drv(|s.log|, call);
    var u := AfterCall(drv, s.(queue := []), call);
    LogOne(s.log, run.from, Record(call, answer), SUCCESS);
    stop' := NoStop;
    if Drops(Record(call, answer)) {
      main' := Lost(k + 1, Some(p));
      DownLost(f, d, s, u, hold, run, k);
    } else if answer == SUCCESS {
      main' := AfterAnswer(k, answer);
      DownStarts(f, d, s, u, hold, run, k);
    } else {
      main', stop' := AfterAnswer(k, answer), Stop(p, Clock(c), answer);
      DownFails(f, d, s, u, hold, run, k, answer);
      assert d[p] == |run.chain| - 1 - (k + 1);
    }
  }

  /** Where the start is after clock `k` has been told to start, or a failure has been passed on to it. */
  ghost predicate DownStepped(drv: Driver, s: State, r: State, run: Run, k: nat, status: int, main': Main, stop': Stop)
    requires k + 1 < |run.chain|
  {
    var rec := Record(SetState(run.chain[k], RUNNING), drv(|s.log|, SetState(run.chain[k], RUNNING)));
    if status == SUCCESS then
      && main' == AfterCalls(k, rec, Some(run.chain[k + 1])) && r.log == s.log + [rec]
      && (stop'.Stop? <==> rec.status != SUCCESS && !Drops(rec))
    else
      main' == AfterAnswer(k, status) && r.log == s.log && stop'.NoStop?
  }

  lemma StepDown(f: Forest, d: seq<nat>, drv: Driver, s: State, hold: seq<nat>, run: Run, k: nat, status: int)
      returns (main': Main, stop': Stop)
    requires WellFormed(f, s) && Fixed(f, d, hold, run) && Inv(f, d, s, hold, run, Down(k, status), NoStop)
    ensures s.queue != [] && Inv(f, d, Step(f, drv, s), hold, run, main', stop')
    ensures Measure(d, run, main', stop') < Measure(d, run, Down(k, status), NoStop)
    ensures stop'.Stop? ==> k + 1 < |run.chain| && TurnsBack(run, k + 1, main', stop')
    ensures DownStepped(drv, s, Step(f, drv, s), run, k, status, main', stop')
  {
    var c := run.chain[k];
    DownReady(f, d, s, hold, run, k, status, NoStop);
    assert s.queue == [PreRequest(Clock(run.chain[k + 1]), Clock(c), RUNNING, status)] && s.queue[1..] == [];
    assert Step(f, drv, s) == ParentReply(f, drv, s.(queue := []), c, RUNNING, status);
    if status != SUCCESS {
      main', stop' := AfterAnswer(k, status), NoStop;
      DownPasses(f, d, s, hold, run, k, status, NoStop);
    } else {
      main', stop' := DownCalled(f, d, drv, s, hold, run, k);
    }
  }

  // ---------- the end of a request ----------

  /** The requested clock gives up its kept response. */
  lemma ResponseForm(f: Forest, drv: Driver, s: State, run: Run, status: int, stop: Stop) returns (y: Dev)
    requires WellFormed(f, s) && run.chain != [] && run.chain[0] < |f|
    requires s.queue == [Response(run.chain[0], status, run.target)] + StopEvents(stop)
    requires s.dev[run.chain[0]].delayed == [Delayed(run.cookie, run.requester)]
    requires s.dev[run.chain[0]].cookie == run.cookie
    ensures y == s.dev[run.chain[0]].(ongoing := false, delayed := [])
    ensures var r := Step(f, drv, s);
      && r.dev == s.dev[run.chain[0] := y]
      && r.queue == StopEvents(stop) + [Reply(run.requester, run.chain[0], status, run.target)]
      && r.log == s.log && r.replies == s.replies
  {
    var x := s.dev[run.chain[0]];
    assert s.queue[1..] == StopEvents(stop);
    assert FindDelayed(x.delayed, x.cookie) == 0;
    assert x.delayed[..0] + x.delayed[1..] == [];
    y := x.(ongoing := false, delayed := []);
  }

  lemma ResponseDev(dev: seq<Dev>, run: Run, y: Dev)
    requires run.chain != [] && run.chain[0] < |dev| && Stages(dev, run, 0) && Ongoing(dev, run, false, true)
    requires y == dev[run.chain[0]].(ongoing := false, delayed := [])
    ensures var dev' := dev[run.chain[0] := y];
      Stages(dev', run, 0) && Ongoing(dev', run, false, false) && SameAccount(dev, dev')
  {
  }

  lemma DeliverForm(f: Forest, drv: Driver, s: State, run: Run, status: int, stop: Stop)
    requires WellFormed(f, s) && run.chain != []
    requires s.queue == MainEvents(run, Deliver(status)) + StopEvents(stop)
    ensures var r := Step(f, drv, s);
      && r.queue == StopEvents(stop) + MainEvents(run, Finished(status)) && r.dev == s.dev && r.log == s.log
      && r.replies == s.replies + [Reply(run.requester, run.chain[0], status, run.target)]
  {
    assert s.queue[1..] == StopEvents(stop);
    assert StopEvents(stop) + MainEvents(run, Finished(status)) == StopEvents(stop);
  }

  lemma StepRespond(f: Forest, d: seq<nat>, drv: Driver, s: State, hold: seq<nat>, run: Run, status: int)
    requires WellFormed(f, s) && Fixed(f, d, hold, run) && Inv(f, d, s, hold, run, Respond(status), NoStop)
    ensures s.queue != [] && Inv(f, d, Step(f, drv, s), hold, run, Deliver(status), NoStop)
    ensures Step(f, drv, s).log == s.log
  {
    var y := ResponseForm(f, drv, s, run, status, NoStop);
    ResponseDev(s.dev, run, y);
    var e := Extra(hold, run, Deliver(status), NoStop);
    assert e == Extra(hold, run, Respond(status), NoStop);
    CountsKept(f, s.dev, s.dev[run.chain[0] := y], e);
    AloneInQueue(run, Deliver(status));
  }

  lemma StepDeliver(f: Forest, d: seq<nat>, drv: Driver, s: State, hold: seq<nat>, run: Run, status: int)
    requires WellFormed(f, s) && Fixed(f, d, hold, run) && Inv(f, d, s, hold, run, Deliver(status), NoStop)
    ensures s.queue != [] && Inv(f, d, Step(f, drv, s), hold, run, Finished(status), NoStop)
    ensures Step(f, drv, s).log == s.log
  {
    DeliverForm(f, drv, s, run, status, NoStop);
    assert Extra(hold, run, Finished(status), NoStop) == Extra(hold, run, Deliver(status), NoStop);
  }

  // ---------- any event of a start ----------

  /** Only the last driver call may have failed. */
  ghost predicate Late(log: seq<Record>, from: nat) {
    from <= |log| && forall i :: from <= i < |log| - 1 ==> log[i].status == SUCCESS
  }

  lemma IdleStartGrows(f: Forest, drv: Driver, s: State, c: nat, status: int)
    requires WellFormed(f, s) && c < |f|
    ensures var r := IdleStart(f, drv, s, c, status);
      |s.log| <= |r.log| <= |s.log| + 1 && s.log == r.log[..|s.log|]
  {
  }

  lemma ClimbGrows(f: Forest, drv: Driver, s: State, source: Entity, c: nat)
    requires WellFormed(f, s) && c < |f| && s.dev[c].stage.Idle?
    requires s.queue == [PreRequest(source, Clock(c), RUNNING, SUCCESS)]
    ensures Grown(s.log, Step(f, drv, s).log)
  {
    var s0 := s.(queue := [], dev := s.dev[c := s.dev[c].(caller := source)]);
    var t := AfterCall(drv, s0, GetState(c, RUNNING));
    assert s.queue[1..] == [];
    assert Step(f, drv, s) == ClimbTo(f, drv, t, c, drv(|s.log|, GetState(c, RUNNING)));
    IdleStartGrows(f, drv, t, c, SUCCESS);
  }

  lemma DownGrows(f: Forest, drv: Driver, s: State, p: nat, c: nat, status: int)
    requires WellFormed(f, s) && c < |f| && s.dev[c].stage.WaitParent? && f[c] == Some(p)
    requires s.queue == [PreRequest(Clock(p), Clock(c), RUNNING, status)]
    ensures Grown(s.log, Step(f, drv, s).log) && (status != SUCCESS ==> Step(f, drv, s).log == s.log)
  {
    assert s.queue[1..] == [];
    assert Step(f, drv, s) == ParentReply(f, drv, s.(queue := []), c, RUNNING, status);
  }

  lemma LogOfStart(f: Forest, d: seq<nat>, drv: Driver, s: State, hold: seq<nat>, run: Run, main: Main)
    requires WellFormed(f, s) && Fixed(f, d, hold, run) && Inv(f, d, s, hold, run, main, NoStop)
    requires Late(s.log, run.from) && (main.Climb? || main.Down?)
    ensures s.queue != [] && Late(Step(f, drv, s).log, run.from)
  {
    var c := run.chain[main.k];
    assert run.level[c] == main.k;
    if main.Climb? {
      assert s.queue == MainEvents(run, main);
      ClimbGrows(f, drv, s, if main.k == 0 then run.requester else Clock(run.chain[main.k - 1]), c);
      GrownLate(s.log, Step(f, drv, s).log, run.from);
    } else {
      DownReady(f, d, s, hold, run, main.k, main.status, NoStop);
      assert s.queue == MainEvents(run, main);
      DownGrows(f, drv, s, run.chain[main.k + 1], c, main.status);
      if main.status == SUCCESS {
        GrownLate(s.log, Step(f, drv, s).log, run.from);
      }
    }
  }

  lemma GrownLate(before: seq<Record>, log: seq<Record>, from: nat)
    requires Told(before, from, SUCCESS) && Grown(before, log)
    ensures Late(log, from)
  {
    AllSuccessful(before[from..]);
    assert forall i :: from <= i < |before| ==> log[i] == before[i] == before[from..][i - from];
  }

  /** The calls made at an event of a start, and where it is then. */
  ghost predicate Advanced(f: Forest, drv: Driver, s: State, r: State, run: Run, main: Main, main': Main, stop': Stop) {
    match main
    case Climb(k) =>
      && k < |run.chain| && run.chain[k] < |f| && run.chain[k] < |s.dev| && stop'.NoStop?
      && var c := run.chain[k];
        && main' == ClimbMain(f, drv, |s.log|, c, s.dev[c].running, k)
        && r.log == s.log + ClimbRecords(f, drv, |s.log|, c, s.dev[c].running)
    case Down(k, status) => k + 1 < |run.chain| && DownStepped(drv, s, r, run, k, status, main', stop')
    case _ => !main'.Climb? && !main'.Down? && r.log == s.log && stop'.NoStop?
  }

  /**
    Every event of a start keeps the invariant under every driver, and the number of events still to come decreases. At
    a failed start a STOP message sets out.
  */
  lemma StepStarting(f: Forest, d: seq<nat>, drv: Driver, s: State, hold: seq<nat>, run: Run, main: Main)
      returns (main': Main, stop': Stop)
    requires WellFormed(f, s) && Fixed(f, d, hold, run) && Inv(f, d, s, hold, run, main, NoStop)
    requires s.queue != [] && Late(s.log, run.from)
    ensures Inv(f, d, Step(f, drv, s), hold, run, main', stop')
    ensures Measure(d, run, main', stop') < Measure(d, run, main, NoStop)
    ensures Late(Step(f, drv, s).log, run.from)
    ensures stop'.Stop? ==> main.Down? && main.k + 1 < |run.chain| && TurnsBack(run, main.k + 1, main', stop')
    ensures Advanced(f, drv, s, Step(f, drv, s), run, main, main', stop')
  {
    hide Step;
    stop' := NoStop;
    match main
    case Climb(k) =>
      main' := StepClimb(f, d, drv, s, hold, run, k);
      LogOfStart(f, d, drv, s, hold, run, main);
    case Down(k, status) =>
      main', stop' := StepDown(f, d, drv, s, hold, run, k, status);
      LogOfStart(f, d, drv, s, hold, run, main);
    case Respond(status) =>
      main' := Deliver(status);
      StepRespond(f, d, drv, s, hold, run, status);
    case Deliver(status) =>
      main' := Finished(status);
      StepDeliver(f, d, drv, s, hold, run, status);
    case StopPending =>
      assert false;
    case Finished(_) =>
      assert false;
    case Lost(_, _) =>
      assert false;
  }
}
