/**
  The driver calls of a whole request, as a function of the state it is made in and of what the drivers answer: a start
  asks from its clock up to the first that runs, starts the clocks from there down, and turns back where one fails; a
  stop climbs as long as clocks give back their last reference.
*/
module ClockTreeCalls {
  import opened FwkStatus
  import opened ClockTree
  import opened ClockTreeInvariant
  import opened ClockTreeHolds
  import opened ClockTreeSteps
  import opened ClockTreeStops

  predicate Within(chain: seq<nat>, dev: seq<Dev>) {
    forall i :: 0 <= i < |chain| ==> chain[i] < |dev|
  }

  /**
    The calls of a STOP message at level `k`, the first of them being the `n`-th of all: it goes on above a clock that
    gives back its last reference, `granted` of them being the one that a failed start took there.
  */
  function StopCalls(drv: Driver, chain: seq<nat>, dev: seq<Dev>, granted: nat, n: nat, k: nat): seq<Record>
    requires Within(chain, dev) && k <= |chain|
    decreases |chain| - k
  {
    if k == |chain| then
      []
    else
      var c, refs := chain[k], dev[chain[k]].refCount + granted;
      MessageCalls(drv, n, c, refs) +
      if MessageClimbs(drv, n, c, refs) then StopCalls(drv, chain, dev, granted, n + 2, k + 1) else []
  }

  /** The calls that start the clocks below level `w`, and those of the STOP message if one of them fails. */
  function DownCalls(drv: Driver, chain: seq<nat>, dev: seq<Dev>, n: nat, w: nat): seq<Record>
    requires Within(chain, dev) && w <= |chain|
    decreases w
  {
    if w == 0 then
      []
    else
      var call := SetState(chain[w - 1], RUNNING);
      var rec := Record(call, drv(n, call));
      [rec] +
      if rec.status == SUCCESS then DownCalls(drv, chain, dev, n + 1, w - 1)
      else if Drops(rec) then []
      else StopCalls(drv, chain, dev, 1, n + 1, w)
  }

  /** The calls of a start that has reached level `k`. */
  function ClimbCalls(drv: Driver, chain: seq<nat>, dev: seq<Dev>, n: nat, k: nat): seq<Record>
    requires Within(chain, dev) && k < |chain|
    decreases |chain| - k
  {
    var call := GetState(chain[k], RUNNING);
    var rec := Record(call, drv(n, call));
    [rec] +
    if rec.status != SUCCESS then []
    else if dev[chain[k]].running then DownCalls(drv, chain, dev, n + 1, k)
    else if k + 1 == |chain| then DownCalls(drv, chain, dev, n + 1, k + 1)
    else ClimbCalls(drv, chain, dev, n + 1, k + 1)
  }

  /** The calls of a request on the first clock of the chain, made in state `s`. */
  function RequestCalls(drv: Driver, chain: seq<nat>, s: State, target: nat): seq<Record>
    requires chain != [] && Within(chain, s.dev)
  {
    if target == STOPPED then StopCalls(drv, chain, s.dev, 0, |s.log|, 0)
    else ClimbCalls(drv, chain, s.dev, |s.log|, 0)
  }

  /** All driver calls made when the request has come to its end. */
  function LogAfter(drv: Driver, s: State, chain: seq<nat>, target: nat): (log: seq<Record>)
    requires chain != [] && Within(chain, s.dev)
    ensures |s.log| <= |log|
  {
    s.log + RequestCalls(drv, chain, s, target)
  }

  /** The same for a request on clock `a`. */
  ghost function LogOf(f: Forest, d: seq<nat>, drv: Driver, s: State, a: nat, state: nat): (log: seq<Record>)
    requires Depths(f, d) && a < |f| == |s.dev|
    ensures |s.log| <= |log|
  {
    LogAfter(drv, s, ChainOf(f, d, a), state)
  }

  // ---------- what the calls are ----------

  /** The driver's answers, the first call being the `n`-th of all. */
  ghost predicate Truthful(drv: Driver, calls: seq<Record>, n: nat) {
    forall i :: 0 <= i < |calls| ==> calls[i].status == drv(n + i, calls[i].call)
  }

  /** A call made while an event with the target state is processed. */
  predicate CallFor(call: Call, state: nat) {
    match call
    case GetState(_, during) => during == state
    case SetState(_, target) => target == state
  }

  predicate AllFor(calls: seq<Record>, state: nat) {
    forall i :: 0 <= i < |calls| ==> CallFor(calls[i].call, state)
  }

  lemma TruthfulAppend(drv: Driver, a: seq<Record>, b: seq<Record>, n: nat)
    requires Truthful(drv, a, n) && Truthful(drv, b, n + |a|)
    ensures Truthful(drv, a + b, n)
  {
    forall i | 0 <= i < |a + b|
      ensures (a + b)[i].status == drv(n + i, (a + b)[i].call)
    {
      if i >= |a| {
        assert (a + b)[i] == b[i - |a|];
        assert b[i - |a|].status == drv(n + |a| + (i - |a|), b[i - |a|].call);
      }
    }
  }

  lemma {:induction false} StopCallsAre(drv: Driver, chain: seq<nat>, dev: seq<Dev>, granted: nat, n: nat, k: nat)
    requires Within(chain, dev) && k <= |chain|
    ensures var calls := StopCalls(drv, chain, dev, granted, n, k);
      Truthful(drv, calls, n) && AllFor(calls, STOPPED)
    decreases |chain| - k
  {
    if k == |chain| {
    } else {
      var c, refs := chain[k], dev[chain[k]].refCount + granted;
      if MessageClimbs(drv, n, c, refs) {
        StopCallsAre(drv, chain, dev, granted, n + 2, k + 1);
        TruthfulAppend(drv, MessageCalls(drv, n, c, refs), StopCalls(drv, chain, dev, granted, n + 2, k + 1), n);
      }
    }
  }

  // ---------- where the STOP message's calls begin ----------

  /** Position of the first call that failed, or the length. */
  function FirstFailing(log: seq<Record>): (i: nat)
    ensures i <= |log|
  {
    if log == [] || log[0].status != SUCCESS then 0 else 1 + FirstFailing(log[1..])
  }

  lemma {:induction false} FirstFailingIs(log: seq<Record>, q: nat)
    requires q <= |log| && (forall i :: 0 <= i < q ==> log[i].status == SUCCESS)
    requires q < |log| ==> log[q].status != SUCCESS
    ensures FirstFailing(log) == q
    decreases |log|
  {
    if q == 0 {
    } else {
      FirstFailingIs(log[1..], q - 1);
    }
  }

  lemma {:induction false} FailureAt(log: seq<Record>)
    ensures FirstFailure(log) == if FirstFailing(log) < |log| then log[FirstFailing(log)].status else SUCCESS
    ensures forall i :: 0 <= i < FirstFailing(log) ==> log[i].status == SUCCESS
    ensures FirstFailing(log) < |log| ==> log[FirstFailing(log)].status != SUCCESS
    decreases |log|
  {
    if log == [] {
    } else if log[0].status == SUCCESS {
      FailureAt(log[1..]);
      assert forall i :: 1 <= i < |log| ==> log[i] == log[1..][i - 1];
    }
  }

  /** A STOP message sets out at once, or after the call at which a start failed. */
  function StopsFrom(log: seq<Record>, from: nat, target: nat): (q: nat)
    requires from <= |log|
    ensures from <= q
  {
    if target == STOPPED then from else from + FirstFailing(log[from..]) + 1
  }

  lemma LateStops(log: seq<Record>, from: nat)
    requires Late(log, from)
    ensures StopsFrom(log, from, RUNNING) >= |log|
  {
    var calls := log[from..];
    FailureAt(calls);
    if FirstFailing(calls) < |calls| {
      assert calls[FirstFailing(calls)] == log[from + FirstFailing(calls)];
    }
  }

  /** The calls of a start up to the first that fails ask for RUNNING, the others for STOPPED. */
  ghost predicate TurnsAtFailure(calls: seq<Record>) {
    forall i :: 0 <= i < |calls| ==> CallFor(calls[i].call, if i <= FirstFailing(calls) then RUNNING else STOPPED)
  }

  lemma TurnsLater(rec: Record, calls: seq<Record>)
    requires rec.status == SUCCESS && CallFor(rec.call, RUNNING) && TurnsAtFailure(calls)
    ensures TurnsAtFailure([rec] + calls)
  {
    assert ([rec] + calls)[1..] == calls;
  }

  lemma DownUnfold(drv: Driver, chain: seq<nat>, dev: seq<Dev>, n: nat, w: nat)
    requires Within(chain, dev) && w <= |chain|
    ensures DownCalls(drv, chain, dev, n, w) ==
      if w == 0 then [] else
        var rec := Record(SetState(chain[w - 1], RUNNING), drv(n, SetState(chain[w - 1], RUNNING)));
        [rec] + if rec.status == SUCCESS then DownCalls(drv, chain, dev, n + 1, w - 1)
                else if Drops(rec) then [] else StopCalls(drv, chain, dev, 1, n + 1, w)
  {
    hide StopCalls;
  }

  lemma ClimbUnfold(drv: Driver, chain: seq<nat>, dev: seq<Dev>, n: nat, k: nat)
    requires Within(chain, dev) && k < |chain|
    ensures var rec := Record(GetState(chain[k], RUNNING), drv(n, GetState(chain[k], RUNNING)));
      ClimbCalls(drv, chain, dev, n, k) == [rec] +
        if rec.status != SUCCESS then [] else if dev[chain[k]].running then DownCalls(drv, chain, dev, n + 1, k)
        else if k + 1 == |chain| then DownCalls(drv, chain, dev, n + 1, k + 1)
        else ClimbCalls(drv, chain, dev, n + 1, k + 1)
  {
    hide DownCalls;
  }

  lemma {:induction false} DownCallsAre(drv: Driver, chain: seq<nat>, dev: seq<Dev>, n: nat, w: nat)
    requires Within(chain, dev) && w <= |chain|
    ensures var calls := DownCalls(drv, chain, dev, n, w);
      Truthful(drv, calls, n) && TurnsAtFailure(calls)
    decreases w
  {
    hide DownCalls, StopCalls;
    DownUnfold(drv, chain, dev, n, w);
    if w == 0 {
    } else {
      var call := SetState(chain[w - 1], RUNNING);
      var rec := Record(call, drv(n, call));
      if rec.status == SUCCESS {
        DownCallsAre(drv, chain, dev, n + 1, w - 1);
        TruthfulAppend(drv, [rec], DownCalls(drv, chain, dev, n + 1, w - 1), n);
        TurnsLater(rec, DownCalls(drv, chain, dev, n + 1, w - 1));
      } else if !Drops(rec) {
        StopCallsAre(drv, chain, dev, 1, n + 1, w);
        TruthfulAppend(drv, [rec], StopCalls(drv, chain, dev, 1, n + 1, w), n);
      }
    }
  }

  lemma {:induction false} ClimbCallsAre(drv: Driver, chain: seq<nat>, dev: seq<Dev>, n: nat, k: nat)
    requires Within(chain, dev) && k < |chain|
    ensures var calls := ClimbCalls(drv, chain, dev, n, k);
      Truthful(drv, calls, n) && TurnsAtFailure(calls)
    decreases |chain| - k
  {
    hide ClimbCalls, DownCalls;
    ClimbUnfold(drv, chain, dev, n, k);
    var call := GetState(chain[k], RUNNING);
    var rec := Record(call, drv(n, call));
    if rec.status == SUCCESS {
      var rest :=
        if dev[chain[k]].running then DownCalls(drv, chain, dev, n + 1, k)
        else if k + 1 == |chain| then DownCalls(drv, chain, dev, n + 1, k + 1)
        else ClimbCalls(drv, chain, dev, n + 1, k + 1);
      if dev[chain[k]].running {
        DownCallsAre(drv, chain, dev, n + 1, k);
      } else if k + 1 == |chain| {
        DownCallsAre(drv, chain, dev, n + 1, k + 1);
      } else {
        ClimbCallsAre(drv, chain, dev, n + 1, k + 1);
      }
      TruthfulAppend(drv, [rec], rest, n);
      TurnsLater(rec, rest);
    }
  }

  /** Every foreseen call has the answer of its driver; those from `StopsFrom` on ask for STOPPED, others RUNNING. */
  lemma LogForeseen(f: Forest, d: seq<nat>, drv: Driver, s: State, a: nat, state: nat)
    requires Depths(f, d) && a < |f| == |s.dev| && (state == STOPPED || state == RUNNING)
    ensures var log := LogOf(f, d, drv, s, a, state);
      && (forall i :: |s.log| <= i < |log| ==> log[i].status == drv(i, log[i].call))
      && (forall i :: |s.log| <= i < |log| ==>
            CallFor(log[i].call, if i < StopsFrom(log, |s.log|, state) then RUNNING else STOPPED))
  {
    hide ChainOf, StopCalls, ClimbCalls;
    var chain, n := ChainOf(f, d, a), |s.log|;
    var log, calls := LogOf(f, d, drv, s, a, state), RequestCalls(drv, chain, s, state);
    if state == STOPPED {
      StopCallsAre(drv, chain, s.dev, 0, n, 0);
    } else {
      ClimbCallsAre(drv, chain, s.dev, n, 0);
    }
    assert log[n..] == calls;
    forall i | n <= i < |log|
      ensures log[i].status == drv(i, log[i].call)
      ensures CallFor(log[i].call, if i < StopsFrom(log, n, state) then RUNNING else STOPPED)
    {
      assert log[i] == calls[i - n];
    }
  }

  // ---------- the references of a start that turns back ----------

  lemma {:induction false} ChainOfTail(f: Forest, d: seq<nat>, chain: seq<nat>, above: nat, k: nat)
    requires Depths(f, d) && IsChain(f, d, chain) && above + k < |chain|
    ensures k <= d[chain[above]] && ChainOf(f, d, chain[above])[k] == chain[above + k]
    decreases k
  {
    if k == 0 {
    } else {
      assert f[chain[above]] == Some(chain[above + 1]);
      ChainOfTail(f, d, chain, above + 1, k - 1);
    }
  }

  /** One more hold at `chain[above]` changes no clock off the way from there to the root. */
  lemma RunsElsewhere(f: Forest, d: seq<nat>, dev: seq<Dev>, now: seq<Dev>, hold: seq<nat>, chain: seq<nat>, above: nat,
      x: nat)
    requires Depths(f, d) && IsChain(f, d, chain) && above < |chain| && x < |f| && !IsSingleNode(f, x)
    requires Counts(f, dev, hold) && Counts(f, now, AddAt(hold, Some(chain[above])))
    requires forall j :: above <= j < |chain| ==> chain[j] != x
    ensures dev[x].running == now[x].running
  {
    var held := AddAt(hold, Some(chain[above]));
    RunningExactlyWhenHeld(f, d, dev, hold, x);
    RunningExactlyWhenHeld(f, d, now, held, x);
    if HeldBelow(f, d, held, x) {
      var y: nat, k: nat :| y < |f| && k <= d[y] && ChainOf(f, d, y)[k] == x && held[y] > 0;
      if y == chain[above] {
        ChainOfTail(f, d, chain, above, k);
      }
    }
    if HeldBelow(f, d, hold, x) {
      var y: nat, k: nat :| y < |f| && k <= d[y] && ChainOf(f, d, y)[k] == x && hold[y] > 0;
      assert held[y] > 0;
    }
  }

  /** A child of the clock at level `i`, other than the one on the chain, runs as before. */
  lemma OtherKids(f: Forest, d: seq<nat>, dev: seq<Dev>, now: seq<Dev>, hold: seq<nat>, chain: seq<nat>, above: nat,
      i: nat, x: nat)
    requires Depths(f, d) && IsChain(f, d, chain) && above <= i < |chain| && x < |f| && f[x] == Some(chain[i])
    requires Counts(f, dev, hold) && Counts(f, now, AddAt(hold, Some(chain[above])))
    requires i > above ==> x != chain[i - 1]
    ensures dev[x].running == now[x].running
  {
    assert d[x] == d[f[x].value] + 1;
    forall j | above <= j < |chain|
      ensures chain[j] != x
    {
      assert d[chain[j]] == |chain| - 1 - j;
    }
    RunsElsewhere(f, d, dev, now, hold, chain, above, x);
  }

  /** The running children of the clock at level `i`: as before, and the clock below it on the chain. */
  lemma OneMoreKid(f: Forest, d: seq<nat>, dev: seq<Dev>, now: seq<Dev>, hold: seq<nat>, chain: seq<nat>, above: nat,
      i: nat)
    requires Depths(f, d) && IsChain(f, d, chain) && above <= i < |chain|
    requires Counts(f, dev, hold) && Counts(f, now, AddAt(hold, Some(chain[above])))
    requires i > above ==> !dev[chain[i - 1]].running && now[chain[i - 1]].running
    ensures RunningKids(f, now, chain[i]) ==
      RunningKids(f, dev, chain[i]) + if i > above then {chain[i - 1]} else {}
    ensures i > above ==> chain[i - 1] !in RunningKids(f, dev, chain[i])
  {
    forall x: nat | x < |f| && f[x] == Some(chain[i]) && (i > above ==> x != chain[i - 1])
      ensures dev[x].running == now[x].running
    {
      OtherKids(f, d, dev, now, hold, chain, above, i, x);
    }
    if i > above {
      assert f[chain[i - 1]] == Some(chain[i]);
    }
  }

  lemma KidsPlusOne(kids: set<nat>, kid: nat)
    requires kid !in kids
    ensures |kids + {kid}| == |kids| + 1
  {
  }

  /** With one more hold at `chain[above]`, clocks from there up to the first that ran have one more reference. */
  lemma {:induction false} OneMoreReference(f: Forest, d: seq<nat>, dev: seq<Dev>, now: seq<Dev>, hold: seq<nat>,
      chain: seq<nat>, above: nat, i: nat)
    requires Depths(f, d) && IsChain(f, d, chain) && above <= i < |chain| && !IsSingleNode(f, chain[0])
    requires Counts(f, dev, hold) && Counts(f, now, AddAt(hold, Some(chain[above])))
    requires forall j :: above <= j < i ==> dev[chain[j]].refCount == 0
    ensures now[chain[i]].refCount == dev[chain[i]].refCount + 1
    decreases i
  {
    var c := chain[i];
    if i > above {
      ChainNotSingle(f, d, chain, i - 1);
      OneMoreReference(f, d, dev, now, hold, chain, above, i - 1);
      assert d[c] != d[chain[above]];
    }
    OneMoreKid(f, d, dev, now, hold, chain, above, i);
    RefIs(f, dev, hold, c);
    RefIs(f, now, AddAt(hold, Some(chain[above])), c);
    if i > above {
      KidsPlusOne(RunningKids(f, dev, c), chain[i - 1]);
    } else {
      assert RunningKids(f, dev, c) + {} == RunningKids(f, dev, c);
    }
  }

  /** The STOP message of a start that turns back goes as far as clocks did not run before the request. */
  lemma {:induction false} TurnedCalls(f: Forest, d: seq<nat>, drv: Driver, dev: seq<Dev>, now: seq<Dev>,
      hold: seq<nat>, chain: seq<nat>, above: nat, n: nat, i: nat)
    requires Depths(f, d) && IsChain(f, d, chain) && above <= i <= |chain| && !IsSingleNode(f, chain[0])
    requires above < |chain| && Counts(f, dev, hold) && Counts(f, now, AddAt(hold, Some(chain[above])))
    requires Within(chain, dev) && Within(chain, now)
    requires forall j :: above <= j < i ==> dev[chain[j]].refCount == 0
    ensures StopCalls(drv, chain, dev, 1, n, i) == StopCalls(drv, chain, now, 0, n, i)
    decreases |chain| - i
  {
    if i == |chain| {
    } else {
      OneMoreReference(f, d, dev, now, hold, chain, above, i);
      if dev[chain[i]].refCount == 0 {
        TurnedCalls(f, d, drv, dev, now, hold, chain, above, n + 2, i + 1);
      }
    }
  }

  // ---------- calls made and calls promised ----------

  /** The calls still to come when `n` were made and a start is at `main`. */
  function StartRest(drv: Driver, chain: seq<nat>, dev: seq<Dev>, n: nat, main: Main): seq<Record>
    requires Within(chain, dev)
  {
    match main
    case Climb(k) => if k < |chain| then ClimbCalls(drv, chain, dev, n, k) else []
    case Down(k, status) => if status == SUCCESS && k < |chain| then DownCalls(drv, chain, dev, n, k + 1) else []
    case _ => []
  }

  lemma StopsAtRoot(drv: Driver, chain: seq<nat>, dev: seq<Dev>, n: nat)
    requires Within(chain, dev)
    ensures StopCalls(drv, chain, dev, 1, n, |chain|) == []
  {
  }

  lemma RootPromise(drv: Driver, chain: seq<nat>, dev: seq<Dev>, n: nat, k: nat)
    requires Within(chain, dev) && k + 1 == |chain|
    ensures var rec := Record(SetState(chain[k], RUNNING), drv(n, SetState(chain[k], RUNNING)));
      DownCalls(drv, chain, dev, n, k + 1) == [rec] + StartRest(drv, chain, dev, n + 1, AfterCalls(k, rec, None))
  {
    hide DownCalls, StopCalls;
    var rec := Record(SetState(chain[k], RUNNING), drv(n, SetState(chain[k], RUNNING)));
    DownUnfold(drv, chain, dev, n, k + 1);
    StopsAtRoot(drv, chain, dev, n + 1);
    AnswerPromise(drv, chain, dev, n + 1, k, rec.status);
  }

  lemma ClimbPromise(f: Forest, d: seq<nat>, drv: Driver, chain: seq<nat>, dev: seq<Dev>, n: nat, k: nat)
    requires IsChain(f, d, chain) && Within(chain, dev) && k < |chain|
    ensures var c := chain[k];
      var recs := ClimbRecords(f, drv, n, c, dev[c].running);
      StartRest(drv, chain, dev, n, Climb(k)) ==
        recs + StartRest(drv, chain, dev, n + |recs|, ClimbMain(f, drv, n, c, dev[c].running, k))
  {
    hide ClimbCalls, DownCalls;
    ClimbUnfold(drv, chain, dev, n, k);
    var c := chain[k];
    var query, start := drv(n, GetState(c, RUNNING)), SetState(c, RUNNING);
    assert f[c].None? <==> k + 1 == |chain|;
    if query != SUCCESS || dev[c].running {
      AnswerPromise(drv, chain, dev, n + 1, k, query);
    } else if k + 1 == |chain| {
      RootPromise(drv, chain, dev, n + 1, k);
      var rest := StartRest(drv, chain, dev, n + 2, AfterCalls(k, Record(start, drv(n + 1, start)), None));
      assert [Record(GetState(c, RUNNING), query)] + ([Record(start, drv(n + 1, start))] + rest) ==
        ClimbRecords(f, drv, n, c, false) + rest;
    }
  }

  /** After clock `k` has answered with success the clocks below it are started, and otherwise nobody is called. */
  lemma AnswerPromise(drv: Driver, chain: seq<nat>, dev: seq<Dev>, n: nat, k: nat, status: int)
    requires Within(chain, dev) && k < |chain|
    ensures StartRest(drv, chain, dev, n, AfterAnswer(k, status)) ==
      if status == SUCCESS then DownCalls(drv, chain, dev, n, k) else []
  {
    hide DownCalls, ClimbCalls;
    if k == 0 {
      DownUnfold(drv, chain, dev, n, 0);
    }
  }

  lemma DownPromise(drv: Driver, chain: seq<nat>, dev: seq<Dev>, n: nat, k: nat)
    requires Within(chain, dev) && k + 1 < |chain|
    ensures var rec := Record(SetState(chain[k], RUNNING), drv(n, SetState(chain[k], RUNNING)));
      StartRest(drv, chain, dev, n, Down(k, SUCCESS)) ==
        [rec] +
        if rec.status != SUCCESS && !Drops(rec) then StopCalls(drv, chain, dev, 1, n + 1, k + 1)
        else StartRest(drv, chain, dev, n + 1, AfterCalls(k, rec, Some(chain[k + 1])))
  {
    hide DownCalls, StopCalls;
    var rec := Record(SetState(chain[k], RUNNING), drv(n, SetState(chain[k], RUNNING)));
    DownUnfold(drv, chain, dev, n, k + 1);
    StopsAtRoot(drv, chain, dev, n + 1);
    AnswerPromise(drv, chain, dev, n + 1, k, rec.status);
  }

  lemma StopPromise(drv: Driver, chain: seq<nat>, dev: seq<Dev>, n: nat, l: nat)
    requires Within(chain, dev) && l < |chain|
    ensures var c, refs := chain[l], dev[chain[l]].refCount;
      var made := MessageCalls(drv, n, c, refs);
      StopCalls(drv, chain, dev, 0, n, l) == made +
        if MessageClimbs(drv, n, c, refs) && l + 1 < |chain| then StopCalls(drv, chain, dev, 0, n + |made|, l + 1)
        else []
  {
    assert StopCalls(drv, chain, dev, 0, n + 2, |chain|) == [];
  }
}
