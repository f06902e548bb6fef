/**
  STOP messages climbing, whatever the drivers answer: those of a request to stop, and those of a start that failed. A
  clock that gives back its last reference tells its parent so even when its own driver refused to stop.
*/
module ClockTreeStops {
  import opened FwkStatus
  import opened ClockTree
  import opened ClockTreeInvariant
  import opened ClockTreeSteps

  // ---------- what the drivers are asked ----------

  /** The driver of level `j` was told to stop; the query before it and the transition are two calls per level. */
  predicate StopAsked(log: seq<Record>, from: nat, j: nat) {
    from + 2 * j + 1 < |log|
  }

  predicate StopRefused(log: seq<Record>, from: nat, j: nat) {
    StopAsked(log, from, j) && log[from + 2 * j + 1].status != SUCCESS
  }

  /** The code drops the request at its own clock: a query PENDING, or the last reference and a stop unsupported. */
  predicate StopDropped(drv: Driver, s: State, a: nat)
    requires a < |s.dev|
  {
    var query, stop := drv(|s.log|, GetState(a, STOPPED)), drv(|s.log| + 1, SetState(a, STOPPED));
    || query == PENDING
    || (query == SUCCESS && s.dev[a].refCount == 1 && (stop == PENDING || stop == E_SUPPORT))
  }

  /** The status a request that is not dropped is answered with. */
  function StopAnswer(drv: Driver, s: State, a: nat): int
    requires a < |s.dev|
  {
    var query := drv(|s.log|, GetState(a, STOPPED));
    if query != SUCCESS then
      query
    else if s.dev[a].refCount == 1 then
      drv(|s.log| + 1, SetState(a, STOPPED))
    else
      SUCCESS
  }

  /** The calls at a clock that gives back its last reference. */
  function BothCalls(c: nat, status: int): seq<Record> {
    [Record(GetState(c, STOPPED), SUCCESS), Record(SetState(c, STOPPED), status)]
  }

  /** The calls at a clock with `refs` references that a STOP message has reached: `n` calls were made before. */
  function MessageCalls(drv: Driver, n: nat, c: nat, refs: nat): seq<Record> {
    var query := drv(n, GetState(c, STOPPED));
    if query == SUCCESS && refs == 1 then BothCalls(c, drv(n + 1, SetState(c, STOPPED)))
    else [Record(GetState(c, STOPPED), query)]
  }

  /** The message goes on above the clock. */
  predicate MessageClimbs(drv: Driver, n: nat, c: nat, refs: nat) {
    var stop := drv(n + 1, SetState(c, STOPPED));
    drv(n, GetState(c, STOPPED)) == SUCCESS && refs == 1 && stop != PENDING && stop != E_SUPPORT
  }

  // ---------- one STOP message ----------

  /** A STOP message at the head of the queue, before the events `q`, for an idle clock that is counted. */
  ghost predicate StopHead(f: Forest, s: State, source: Entity, c: nat, status: int, q: seq<Event>) {
    && WellFormed(f, s) && c < |f| && s.queue == [PreRequest(source, Clock(c), STOPPED, status)] + q
    && s.dev[c].stage.Idle? && 0 < s.dev[c].refCount < TWO32
  }

  /** The answer to the requester, if this is its clock. */
  function Reports(x: Dev, c: nat, status: int): seq<Event> {
    if x.initiator then [Response(c, status, STOPPED)] else []
  }

  ghost predicate Stepped(s: State, r: State, c: nat, x: Dev, calls: seq<Record>, q: seq<Event>)
    requires c < |s.dev|
  {
    r.dev == s.dev[c := x] && r.log == s.log + calls && r.queue == q && r.replies == s.replies
  }

  lemma QueryFails(f: Forest, drv: Driver, s: State, source: Entity, c: nat, status: int, q: seq<Event>, g: int)
    requires StopHead(f, s, source, c, status, q) && g == drv(|s.log|, GetState(c, STOPPED)) && g != SUCCESS
    ensures Stepped(s, Step(f, drv, s), c,
      s.dev[c].(caller := source, initiator := g == PENDING && s.dev[c].initiator),
      [Record(GetState(c, STOPPED), g)], q + if g == PENDING then [] else Reports(s.dev[c], c, g))
  {
    var y := s.dev[c].(caller := source);
    var t := AfterCall(drv, s.(queue := q, dev := s.dev[c := y]), GetState(c, STOPPED));
    assert s.queue[1..] == q;
    if g != PENDING {
      var r := CompleteForm(t, c, STOPPED, g);
      UpdateTwice(s.dev, c, y, y.(initiator := false));
    }
  }

  lemma CountStays(f: Forest, drv: Driver, s: State, source: Entity, c: nat, status: int, q: seq<Event>)
    requires StopHead(f, s, source, c, status, q) && drv(|s.log|, GetState(c, STOPPED)) == SUCCESS
    requires s.dev[c].refCount > 1
    ensures Stepped(s, Step(f, drv, s), c,
      s.dev[c].(caller := source, refCount := s.dev[c].refCount - 1, initiator := false),
      [Record(GetState(c, STOPPED), SUCCESS)], q + Reports(s.dev[c], c, status))
  {
    var y := s.dev[c].(caller := source);
    var z := y.(refCount := s.dev[c].refCount - 1);
    var t := AfterCall(drv, s.(queue := q, dev := s.dev[c := y]), GetState(c, STOPPED));
    assert s.queue[1..] == q;
    var r := CompleteForm(SetRef(t, c, z.refCount), c, STOPPED, status);
    UpdateTwice(s.dev, c, y, z);
    UpdateTwice(s.dev, c, z, z.(initiator := false));
  }

  /** The context after the driver has been told to stop, before the request goes on. */
  function Unreferenced(x: Dev, source: Entity, status: int): Dev {
    x.(caller := source, refCount := 0, running := x.running && status != SUCCESS)
  }

  lemma StopCalled(f: Forest, drv: Driver, s: State, source: Entity, c: nat, status: int, q: seq<Event>, st: int)
      returns (v: State)
    requires StopHead(f, s, source, c, status, q) && drv(|s.log|, GetState(c, STOPPED)) == SUCCESS
    requires s.dev[c].refCount == 1 && st == drv(|s.log| + 1, SetState(c, STOPPED))
    ensures |v.dev| == |s.dev| && Stepped(s, v, c, Unreferenced(s.dev[c], source, st), BothCalls(c, st), q)
    ensures Step(f, drv, s) ==
      if st == PENDING || st == E_SUPPORT then
        v
      else
        var w := CompleteResponse(v, c, STOPPED, st);
        if f[c].Some? then SendSet(w, c, Clock(f[c].value), STOPPED, st) else w
  {
    var y := s.dev[c].(caller := source);
    var z := y.(refCount := 0);
    var t := AfterCall(drv, s.(queue := q, dev := s.dev[c := y]), GetState(c, STOPPED));
    assert s.queue[1..] == q;
    var u := SetRef(t, c, 0);
    v := AfterCall(drv, u, SetState(c, STOPPED));
    UpdateTwice(s.dev, c, y, z);
    UpdateTwice(s.dev, c, z, Unreferenced(s.dev[c], source, st));
    assert v.log == s.log + BothCalls(c, st);
  }

  lemma StopUnsupported(f: Forest, drv: Driver, s: State, source: Entity, c: nat, status: int, q: seq<Event>, st: int)
    requires StopHead(f, s, source, c, status, q) && drv(|s.log|, GetState(c, STOPPED)) == SUCCESS
    requires s.dev[c].refCount == 1 && st == drv(|s.log| + 1, SetState(c, STOPPED))
    requires st == PENDING || st == E_SUPPORT
    ensures Stepped(s, Step(f, drv, s), c, Unreferenced(s.dev[c], source, st), BothCalls(c, st), q)
  {
    var v := StopCalled(f, drv, s, source, c, status, q, st);
  }

  lemma StopAnswered(f: Forest, drv: Driver, s: State, source: Entity, c: nat, status: int, q: seq<Event>, st: int)
    requires StopHead(f, s, source, c, status, q) && drv(|s.log|, GetState(c, STOPPED)) == SUCCESS
    requires s.dev[c].refCount == 1 && st == drv(|s.log| + 1, SetState(c, STOPPED))
    requires st != PENDING && st != E_SUPPORT
    ensures Stepped(s, Step(f, drv, s), c, Unreferenced(s.dev[c], source, st).(initiator := false), BothCalls(c, st),
      q + Reports(s.dev[c], c, st) + StopEvents(Onward(f, c, st)))
  {
    var v := StopCalled(f, drv, s, source, c, status, q, st);
    var x := Unreferenced(s.dev[c], source, st);
    var w := CompleteForm(v, c, STOPPED, st);
    UpdateTwice(s.dev, c, x, x.(initiator := false));
    assert w.queue + [] == w.queue;
  }

  /** The STOP message that goes on to the parent. */
  function Onward(f: Forest, c: nat, status: int): Stop
    requires c < |f|
  {
    if f[c].Some? then Stop(f[c].value, Clock(c), status) else NoStop
  }

  // ---------- between two events ----------

  /**
    What is fixed while a STOP message climbs: the request, the state in which the message set out, the references it
    leaves to be accounted for, the level above the requested clock where it set out, and the clocks from there on.
  */
  datatype Track = Track(run: Run, base: State, e: seq<nat>, above: nat, chain: seq<nat>, level: seq<int>)

  /**
    How far it got: the statuses of the clocks told to stop, whether the next one gave back a reference and kept others,
    and whether that one was asked for its state.
  */
  datatype Phase = Phase(main: Main, stop: Stop, stops: seq<int>, gave: bool, more: bool)

  /** Account of a clock at level `l`: those told to stop have no reference left, the next may have given one back. */
  predicate AccountOf(before: Dev, now: Dev, l: int, stops: seq<int>, gave: bool) {
    if 0 <= l < |stops| then
      before.refCount == 1 && before.running && now.refCount == 0 && (now.running <==> stops[l] != SUCCESS)
    else if gave && l == |stops| then
      before.refCount > 1 && now.refCount == before.refCount - 1 && now.running == before.running
    else
      now.refCount == before.refCount && now.running == before.running
  }

  ghost predicate Accounts(before: seq<Dev>, now: seq<Dev>, level: seq<int>, stops: seq<int>, gave: bool) {
    && |before| == |now| == |level|
    && forall c {:trigger now[c]} :: 0 <= c < |now| ==> AccountOf(before[c], now[c], level[c], stops, gave)
  }

  ghost predicate CalledAt(log: seq<Record>, from: nat, j: nat, c: nat, status: int) {
    StopAsked(log, from, j) && log[from + 2 * j..from + 2 * j + 2] == BothCalls(c, status)
  }

  /** The calls so far: two for every clock told to stop, and perhaps one query after them. */
  ghost predicate CallsMade(log: seq<Record>, k: Track, p: Phase) {
    var from, n := |k.base.log|, |p.stops|;
    && from <= |log| && log[..from] == k.base.log
    && n + (if p.more then 1 else 0) <= |k.chain| && |log| == from + 2 * n + (if p.more then 1 else 0)
    && (forall j: nat {:trigger p.stops[j]} :: j < n ==> CalledAt(log, from, j, k.chain[j], p.stops[j]))
    && (p.more ==> log[|log| - 1].call == GetState(k.chain[n], STOPPED))
    && (p.gave <==> p.more && log[|log| - 1].status == SUCCESS)
  }

  predicate AllObey(stops: seq<int>) {
    forall j :: 0 <= j < |stops| ==> stops[j] == SUCCESS
  }

  /** No driver failed so far. */
  predicate Clean(p: Phase) {
    AllObey(p.stops) && (p.more ==> p.gave)
  }

  /** The first of the drivers did not fail. */
  predicate OwnClean(p: Phase) {
    if p.stops == [] then p.gave else p.stops[0] == SUCCESS
  }

  /** The clock that holds the reference of the message: where it is, or where a failing query ended it. */
  ghost function HeldAt(k: Track, p: Phase): Option<nat> {
    if p.stop.Stop? then Some(p.stop.at)
    else if p.more && !p.gave && |p.stops| < |k.chain| then Some(k.chain[|p.stops|])
    else None
  }

  ghost predicate Setting(f: Forest, d: seq<nat>, k: Track) {
    && Depths(f, d) && |k.base.dev| == |f| == |k.e|
    && IsChain(f, d, k.run.chain) && IsLevels(f, k.run.chain, k.run.level) && !IsSingleNode(f, k.run.chain[0])
    && k.above < |k.run.chain| && k.chain == k.run.chain[k.above..]
    && IsChain(f, d, k.chain) && IsLevels(f, k.chain, k.level)
    && Counts(f, k.base.dev, AddAt(k.e, Some(k.chain[0])))
    && (forall c :: 0 <= c < |f| ==> k.e[c] + |f| + 2 < TWO32)
    && k.run.target == if k.above == 0 then STOPPED else RUNNING
  }

  /** A stop answers its requester when its own clock is done; a failed start passes the failure on meanwhile. */
  ghost predicate Role(k: Track, p: Phase) {
    if k.above == 0 then
      && (p.main.StopPending? <==> p.stops == [] && p.stop.Stop?) && (p.main.StopPending? ==> p.stop.status == SUCCESS)
      && !p.main.Climb? && !p.main.Down?
      && (p.main.Lost? ==> p.main.w == 0 && !OwnClean(p))
      && (!p.main.StopPending? && !p.main.Lost? ==> (StatusSoFar(p.main) == SUCCESS <==> OwnClean(p)))
    else
      && (p.main.Down? || p.main.Respond? || p.main.Deliver? || p.main.Finished?) && p.main.status != SUCCESS
      && (p.main.Down? ==> p.main.k + 1 < k.above)
  }

  ghost predicate Flying(f: Forest, d: seq<nat>, k: Track, t: State, p: Phase)
    requires k.run.chain != []
  {
    && WellFormed(f, t) && QueueShape(t.queue, k.run, p.main, p.stop) && Role(k, p)
    && Stages(t.dev, k.run, WaitCount(p.main))
    && Ongoing(t.dev, k.run, Unanswered(p.main), Unanswered(p.main) || p.main.Respond?)
    && Accounts(k.base.dev, t.dev, k.level, p.stops, p.gave) && CallsMade(t.log, k, p)
    && (p.stop.Stop? ==> !p.more && |p.stops| < |k.chain| && p.stop.at == k.chain[|p.stops|])
    && (p.stop.NoStop? && p.stops == [] ==> p.more)
    && (AllObey(p.stops) ==> Counts(f, t.dev, AddAt(k.e, HeldAt(k, p))))
    && t.replies == k.run.replies +
         (if p.main.Finished? then [Reply(k.run.requester, k.run.chain[0], p.main.status, k.run.target)] else [])
  }

  /** The next clock on the climb: it was running and counted, and its account has not changed yet. */
  lemma NextUp(f: Forest, d: seq<nat>, k: Track, now: seq<Dev>, stops: seq<int>)
    requires Setting(f, d, k) && Accounts(k.base.dev, now, k.level, stops, false) && |stops| < |k.chain|
    ensures var c := k.chain[|stops|];
      && k.base.dev[c].running && 0 < k.base.dev[c].refCount < TWO32
      && now[c].refCount == k.base.dev[c].refCount && now[c].running == k.base.dev[c].running
      && k.level[c] == |stops| && k.run.level[c] == k.above + |stops| && !IsSingleNode(f, c)
      && f[c] == if |stops| + 1 < |k.chain| then Some(k.chain[|stops| + 1]) else None
  {
    var n, dev := |stops|, k.base.dev;
    var c, e := k.chain[n], AddAt(k.e, Some(k.chain[0]));
    assert c == k.run.chain[k.above + n];
    ChainNotSingle(f, d, k.run.chain, k.above + n);
    RefIs(f, dev, e, c);
    KidsBound(f, dev, c);
    AddAtRoom(k.e, Some(k.chain[0]), c);
    assert AccountOf(dev[c], now[c], n, stops, false);
    if n > 0 {
      BelowRuns(f, d, k, now, stops, n - 1);
      assert k.chain[n - 1] in RunningKids(f, dev, c);
    }
  }

  /** A clock told to stop was running under the next one. */
  lemma BelowRuns(f: Forest, d: seq<nat>, k: Track, now: seq<Dev>, stops: seq<int>, j: nat)
    requires Setting(f, d, k) && Accounts(k.base.dev, now, k.level, stops, false) && j < |stops| < |k.chain|
    ensures k.base.dev[k.chain[j]].running && f[k.chain[j]] == Some(k.chain[j + 1])
  {
    assert k.level[k.chain[j]] == j;
    assert AccountOf(k.base.dev[k.chain[j]], now[k.chain[j]], j, stops, false);
  }

  lemma AccountsStop(f: Forest, k: Track, now: seq<Dev>, x: Dev, stops: seq<int>, st: int)
    requires Accounts(k.base.dev, now, k.level, stops, false) && IsLevels(f, k.chain, k.level) && |stops| < |k.chain|
    requires var c := k.chain[|stops|];
      && k.base.dev[c].refCount == 1 && k.base.dev[c].running
      && x.refCount == 0 && (x.running <==> st != SUCCESS)
    ensures Accounts(k.base.dev, now[k.chain[|stops|] := x], k.level, stops + [st], false)
  {
    assert k.level[k.chain[|stops|]] == |stops|;
  }

  lemma AccountsKeep(f: Forest, k: Track, now: seq<Dev>, x: Dev, stops: seq<int>, gave: bool)
    requires Accounts(k.base.dev, now, k.level, stops, false) && IsLevels(f, k.chain, k.level) && |stops| < |k.chain|
    requires AccountOf(k.base.dev[k.chain[|stops|]], x, |stops|, stops, gave)
    ensures Accounts(k.base.dev, now[k.chain[|stops|] := x], k.level, stops, gave)
  {
    assert k.level[k.chain[|stops|]] == |stops|;
  }

  lemma CallsQuery(log: seq<Record>, k: Track, p: Phase, p': Phase, g: int)
    requires CallsMade(log, k, p) && !p.more && |p.stops| < |k.chain|
    requires p'.stops == p.stops && p'.more && (p'.gave <==> g == SUCCESS)
    ensures CallsMade(log + [Record(GetState(k.chain[|p.stops|], STOPPED), g)], k, p')
  {
    var from := |k.base.log|;
    var log' := log + [Record(GetState(k.chain[|p.stops|], STOPPED), g)];
    assert log'[..from] == log[..from];
    forall j: nat | j < |p.stops|
      ensures CalledAt(log', from, j, k.chain[j], p.stops[j])
    {
      CallStays(log, log', from, j, k.chain[j], p.stops[j]);
    }
  }

  lemma CallStays(log: seq<Record>, log': seq<Record>, from: nat, j: nat, c: nat, status: int)
    requires CalledAt(log, from, j, c, status) && |log| <= |log'| && log'[..|log|] == log
    ensures CalledAt(log', from, j, c, status)
  {
    assert log'[from + 2 * j..from + 2 * j + 2] == log[from + 2 * j..from + 2 * j + 2];
  }

  lemma CallsBoth(log: seq<Record>, k: Track, p: Phase, p': Phase, st: int)
    requires CallsMade(log, k, p) && !p.more && |p.stops| < |k.chain|
    requires p'.stops == p.stops + [st] && !p'.more && !p'.gave
    ensures CallsMade(log + BothCalls(k.chain[|p.stops|], st), k, p')
  {
    var from, c := |k.base.log|, k.chain[|p.stops|];
    var log' := log + BothCalls(c, st);
    assert log'[..from] == log[..from] && log'[..|log|] == log;
    forall j: nat | j < |p'.stops|
      ensures CalledAt(log', from, j, k.chain[j], p'.stops[j])
    {
      if j < |p.stops| {
        assert CalledAt(log, from, j, k.chain[j], p.stops[j]);
        CallStays(log, log', from, j, k.chain[j], p.stops[j]);
      } else {
        assert log'[from + 2 * j..from + 2 * j + 2] == BothCalls(c, st);
      }
    }
  }

  // ---------- a STOP message processed ----------

  /** The context of the next clock changes; it answers the requester, or nobody does. */
  lemma DevAfter(f: Forest, dev: seq<Dev>, x: Dev, run: Run, main: Main, main': Main, c: nat)
    requires run.chain != [] && c < |dev| && Stages(dev, run, WaitCount(main)) && dev[c].stage.Idle?
    requires Ongoing(dev, run, Unanswered(main), Unanswered(main) || main.Respond?)
    requires x == dev[c].(caller := x.caller, refCount := x.refCount, running := x.running, initiator := x.initiator)
    requires main.StopPending? ==> c == run.chain[0] && (main'.Respond? || main' == Lost(0, None))
    requires main.StopPending? ==> x.initiator == main'.Lost?
    requires !main.StopPending? ==> main' == main && x.initiator == dev[c].initiator
    ensures Stages(dev[c := x], run, WaitCount(main'))
    ensures Ongoing(dev[c := x], run, Unanswered(main'), Unanswered(main') || main'.Respond?)
  {
    StagesKept(dev, c, x, run, WaitCount(main));
    if main.StopPending? && main'.Respond? {
      OngoingAnswer(dev, run, c, x, true);
    } else {
      OngoingKept(dev, run, c, x, Unanswered(main), Unanswered(main) || main.Respond?);
    }
  }

  /** The answer after the STOP message of the requested clock: `answer` is its status unless it is dropped. */
  function Replied(main: Main, dropped: bool, answer: int): Main {
    if !main.StopPending? then main else if dropped then Lost(0, None) else Respond(answer)
  }

  lemma QueueAfter(run: Run, main: Main, x: Dev, c: nat, dropped: bool, answer: int, stop': Stop)
    requires run.chain != [] && (main.StopPending? ==> c == run.chain[0] && run.target == STOPPED)
    requires x.initiator <==> main.StopPending?
    ensures QueueShape(MainEvents(run, main) + (if dropped then [] else Reports(x, c, answer)) + StopEvents(stop'),
      run, Replied(main, dropped, answer), stop')
  {
    assert MainEvents(run, main) + [] == MainEvents(run, main);
  }

  /** The clock that a STOP message at the head of the queue has reached. */
  ghost predicate Reached(f: Forest, d: seq<nat>, k: Track, t: State, p: Phase) {
    && Setting(f, d, k) && Flying(f, d, k, t, p) && p.stop.Stop?
    && t.queue == StopEvents(p.stop) + MainEvents(k.run, p.main)
  }

  lemma HeadReady(f: Forest, d: seq<nat>, k: Track, t: State, p: Phase)
    requires Reached(f, d, k, t, p)
    ensures StopHead(f, t, p.stop.source, p.stop.at, p.stop.status, MainEvents(k.run, p.main))
    ensures var c := p.stop.at;
      && t.dev[c].refCount == k.base.dev[c].refCount && t.dev[c].running && k.base.dev[c].running
      && (t.dev[c].initiator <==> p.main.StopPending?) && (p.main.StopPending? <==> c == k.run.chain[0])
      && !IsSingleNode(f, c)
    ensures p.main.StopPending? ==> |t.log| == |k.base.log|
    ensures Onward(f, p.stop.at, SUCCESS) ==
      if |p.stops| + 1 < |k.chain| then Stop(k.chain[|p.stops| + 1], Clock(p.stop.at), SUCCESS) else NoStop
  {
    NextUp(f, d, k, t.dev, p.stops);
    assert k.run.level[k.run.chain[0]] == 0;
  }

  /** Everything the next state needs, once the clock's new context, the calls and the queue are known. */
  lemma After(f: Forest, d: seq<nat>, k: Track, t: State, r: State, p: Phase, x: Dev, calls: seq<Record>,
      dropped: bool, answer: int, p': Phase)
    requires Reached(f, d, k, t, p) && WellFormed(f, r) && p'.main == Replied(p.main, dropped, answer)
    requires x == t.dev[p.stop.at].(caller := x.caller, refCount := x.refCount, running := x.running,
                                    initiator := dropped && t.dev[p.stop.at].initiator)
    requires Stepped(t, r, p.stop.at, x, calls, MainEvents(k.run, p.main) +
      (if dropped then [] else Reports(t.dev[p.stop.at], p.stop.at, answer)) + StopEvents(p'.stop))
    requires Accounts(k.base.dev, t.dev[p.stop.at := x], k.level, p'.stops, p'.gave)
    requires CallsMade(t.log + calls, k, p') && (p'.stops == [] ==> p'.stop.NoStop? && p'.more)
    requires p'.stop.Stop? ==> !p'.more && |p'.stops| < |k.chain| && p'.stop.at == k.chain[|p'.stops|]
    requires AllObey(p'.stops) ==> Counts(f, t.dev[p.stop.at := x], AddAt(k.e, HeldAt(k, p')))
    requires AllObey(p'.stops) ==> AllObey(p.stops)
    requires p.main.StopPending? ==> (OwnClean(p') <==> !dropped && answer == SUCCESS)
    requires p.stops != [] ==> p'.stops != [] && p'.stops[0] == p.stops[0]
    ensures Flying(f, d, k, r, p')
  {
    HeadReady(f, d, k, t, p);
    QueueAfter(k.run, p.main, t.dev[p.stop.at], p.stop.at, dropped, answer, p'.stop);
    DevAfter(f, t.dev, x, k.run, p.main, p'.main, p.stop.at);
  }

  // ---------- the accounts of the references ----------

  lemma KeepsAccount(f: Forest, dev: seq<Dev>, x: Dev, e: seq<nat>, c: nat)
    requires c < |f| == |dev| && |e| == |f| && Counts(f, dev, AddAt(e, Some(c)))
    requires dev[c].running && dev[c].refCount > 1 && x.running && x.refCount == dev[c].refCount - 1
    ensures Counts(f, dev[c := x], e)
  {
    var now := AddAt(e, Some(c));
    CountsShift(f, dev, dev[c := x], now, c, x.refCount);
    assert now[c := now[c] + x.refCount - dev[c].refCount] == e;
  }

  lemma LastReference(f: Forest, d: seq<nat>, dev: seq<Dev>, x: Dev, e: seq<nat>, c: nat)
    requires Depths(f, d) && c < |f| == |dev| && |e| == |f| && Counts(f, dev, AddAt(e, Some(c)))
    requires !IsSingleNode(f, c) && dev[c].refCount == 1 && !x.running && x.refCount == 0
    ensures Counts(f, dev[c := x], AddAt(e, f[c]))
  {
    var now := AddAt(e, Some(c));
    if f[c].Some? {
      assert d[c] == d[f[c].value] + 1;
    }
    CountsStop(f, dev, dev[c := x], now, c);
    assert now[c := now[c] - 1] == e;
    if f[c].Some? {
      assert now[f[c].value] == e[f[c].value];
    }
  }

  lemma ObeyNext(stops: seq<int>, st: int)
    ensures AllObey(stops + [st]) <==> AllObey(stops) && st == SUCCESS
  {
    if AllObey(stops + [st]) {
      assert (stops + [st])[|stops|] == st;
      forall j | 0 <= j < |stops|
        ensures stops[j] == SUCCESS
      {
        assert (stops + [st])[j] == stops[j];
      }
    }
  }

  // ---------- the four outcomes ----------

  lemma NothingAfter(q: seq<Event>)
    ensures q + StopEvents(NoStop) == q
  {
  }

  /** The driver does not report its state: the message ends here, and the count keeps its reference. */
  lemma StepQueryFails(f: Forest, d: seq<nat>, drv: Driver, k: Track, t: State, p: Phase, g: int) returns (p': Phase)
    requires Reached(f, d, k, t, p) && g == drv(|t.log|, GetState(p.stop.at, STOPPED)) && g != SUCCESS
    ensures p' == Phase(Replied(p.main, g == PENDING, g), NoStop, p.stops, false, true)
    ensures Step(f, drv, t).log == t.log + [Record(GetState(p.stop.at, STOPPED), g)]
    ensures Flying(f, d, k, Step(f, drv, t), p')
  {
    hide Stages, Ongoing, Counts;
    var c, q := p.stop.at, MainEvents(k.run, p.main);
    var x := t.dev[c].(caller := p.stop.source, initiator := g == PENDING && t.dev[c].initiator);
    p' := Phase(Replied(p.main, g == PENDING, g), NoStop, p.stops, false, true);
    HeadReady(f, d, k, t, p);
    QueryFails(f, drv, t, p.stop.source, c, p.stop.status, q, g);
    NothingAfter(q + if g == PENDING then [] else Reports(t.dev[c], c, g));
    NextUp(f, d, k, t.dev, p.stops);
    AccountsKeep(f, k, t.dev, x, p.stops, false);
    CallsQuery(t.log, k, p, p', g);
    if AllObey(p.stops) {
      CountsKept(f, t.dev, t.dev[c := x], AddAt(k.e, Some(c)));
    }
    After(f, d, k, t, Step(f, drv, t), p, x, [Record(GetState(c, STOPPED), g)], g == PENDING, g, p');
  }

  /** The clock keeps other references. */
  lemma StepCountStays(f: Forest, d: seq<nat>, drv: Driver, k: Track, t: State, p: Phase) returns (p': Phase)
    requires Reached(f, d, k, t, p)
    requires drv(|t.log|, GetState(p.stop.at, STOPPED)) == SUCCESS && t.dev[p.stop.at].refCount > 1
    ensures p' == Phase(Replied(p.main, false, p.stop.status), NoStop, p.stops, true, true)
    ensures Step(f, drv, t).log == t.log + [Record(GetState(p.stop.at, STOPPED), SUCCESS)]
    ensures Flying(f, d, k, Step(f, drv, t), p')
  {
    hide Stages, Ongoing;
    var c, q := p.stop.at, MainEvents(k.run, p.main);
    HeadReady(f, d, k, t, p);
    var x := t.dev[c].(caller := p.stop.source, refCount := t.dev[c].refCount - 1, initiator := false);
    p' := Phase(Replied(p.main, false, p.stop.status), NoStop, p.stops, true, true);
    CountStays(f, drv, t, p.stop.source, c, p.stop.status, q);
    NothingAfter(q + Reports(t.dev[c], c, p.stop.status));
    AccountsKeep(f, k, t.dev, x, p.stops, true);
    CallsQuery(t.log, k, p, p', SUCCESS);
    if AllObey(p.stops) {
      KeepsAccount(f, t.dev, x, k.e, c);
    }
    After(f, d, k, t, Step(f, drv, t), p, x, [Record(GetState(c, STOPPED), SUCCESS)], false, p.stop.status, p');
  }

  /** The last reference, and a driver for which the code drops the request. */
  lemma StepUnsupported(f: Forest, d: seq<nat>, drv: Driver, k: Track, t: State, p: Phase, st: int)
      returns (p': Phase)
    requires Reached(f, d, k, t, p)
    requires drv(|t.log|, GetState(p.stop.at, STOPPED)) == SUCCESS && t.dev[p.stop.at].refCount == 1
    requires st == drv(|t.log| + 1, SetState(p.stop.at, STOPPED)) && (st == PENDING || st == E_SUPPORT)
    ensures Step(f, drv, t).log == t.log + BothCalls(p.stop.at, st)
    ensures p' == Phase(Replied(p.main, true, st), NoStop, p.stops + [st], false, false)
    ensures Flying(f, d, k, Step(f, drv, t), p')
  {
    hide Stages, Ongoing;
    var c, q := p.stop.at, MainEvents(k.run, p.main);
    HeadReady(f, d, k, t, p);
    var x := Unreferenced(t.dev[c], p.stop.source, st);
    p' := Phase(Replied(p.main, true, st), NoStop, p.stops + [st], false, false);
    StopUnsupported(f, drv, t, p.stop.source, c, p.stop.status, q, st);
    assert q + [] + StopEvents(NoStop) == q;
    AccountsStop(f, k, t.dev, x, p.stops, st);
    CallsBoth(t.log, k, p, p', st);
    ObeyNext(p.stops, st);
    After(f, d, k, t, Step(f, drv, t), p, x, BothCalls(c, st), true, st, p');
  }

  /** The last reference: whatever else the driver answers, the message goes on to the parent. */
  lemma StepGoesOn(f: Forest, d: seq<nat>, drv: Driver, k: Track, t: State, p: Phase, st: int) returns (p': Phase)
    requires Reached(f, d, k, t, p)
    requires drv(|t.log|, GetState(p.stop.at, STOPPED)) == SUCCESS && t.dev[p.stop.at].refCount == 1
    requires st == drv(|t.log| + 1, SetState(p.stop.at, STOPPED)) && st != PENDING && st != E_SUPPORT
    ensures p.stop.at < |f| && Step(f, drv, t).log == t.log + BothCalls(p.stop.at, st)
    ensures p' == Phase(Replied(p.main, false, st), Onward(f, p.stop.at, st), p.stops + [st], false, false)
    ensures Flying(f, d, k, Step(f, drv, t), p')
  {
    hide Step, Stages, Ongoing, Counts;
    var c, q := p.stop.at, MainEvents(k.run, p.main);
    HeadReady(f, d, k, t, p);
    var x := Unreferenced(t.dev[c], p.stop.source, st).(initiator := false);
    p' := Phase(Replied(p.main, false, st), Onward(f, c, st), p.stops + [st], false, false);
    StopAnswered(f, drv, t, p.stop.source, c, p.stop.status, q, st);
    AccountsStop(f, k, t.dev, x, p.stops, st);
    CallsBoth(t.log, k, p, p', st);
    ObeyNext(p.stops, st);
    if AllObey(p'.stops) {
      LastReference(f, d, t.dev, x, k.e, c);
    }
    After(f, d, k, t, Step(f, drv, t), p, x, BothCalls(c, st), false, st, p');
  }

  /** One STOP message under any driver. */
  lemma StepMessage(f: Forest, d: seq<nat>, drv: Driver, k: Track, t: State, p: Phase) returns (p': Phase)
    requires Reached(f, d, k, t, p)
    ensures Flying(f, d, k, Step(f, drv, t), p')
    ensures Measure(d, k.run, p'.main, p'.stop) < Measure(d, k.run, p.main, p.stop)
    ensures p.stop.at < |t.dev| && (p.main.StopPending? ==>
      p'.main == if StopDropped(drv, t, p.stop.at) then Lost(0, None) else Respond(StopAnswer(drv, t, p.stop.at)))
    ensures !p.main.StopPending? ==> p'.main == p.main
    ensures Step(f, drv, t).log == t.log + MessageCalls(drv, |t.log|, p.stop.at, t.dev[p.stop.at].refCount)
    ensures p'.stop.Stop? <==>
      MessageClimbs(drv, |t.log|, p.stop.at, t.dev[p.stop.at].refCount) && |p.stops| + 1 < |k.chain|
    ensures p'.stop.Stop? ==> |p'.stops| == |p.stops| + 1
    ensures p'.stops == [] ==>
      Step(f, drv, t).log == t.log + [Record(GetState(p.stop.at, STOPPED), drv(|t.log|, GetState(p.stop.at, STOPPED)))]
  {
    hide Step, Accounts, CallsMade, Stages, Ongoing, QueueShape, Counts;
    HeadReady(f, d, k, t, p);
    var c := p.stop.at;
    var g, st := drv(|t.log|, GetState(c, STOPPED)), drv(|t.log| + 1, SetState(c, STOPPED));
    if g != SUCCESS {
      p' := StepQueryFails(f, d, drv, k, t, p, g);
    } else if t.dev[c].refCount > 1 {
      p' := StepCountStays(f, d, drv, k, t, p);
    } else if st == PENDING || st == E_SUPPORT {
      p' := StepUnsupported(f, d, drv, k, t, p, st);
    } else {
      p' := StepGoesOn(f, d, drv, k, t, p, st);
      if f[c].Some? {
        assert d[c] == d[f[c].value] + 1;
      }
    }
  }

  // ---------- the other events ----------

  /** An event that asks no driver and changes no account. */
  lemma Aside(f: Forest, d: seq<nat>, k: Track, t: State, r: State, p: Phase, main': Main)
    requires Setting(f, d, k) && Flying(f, d, k, t, p) && WellFormed(f, r) && r.log == t.log
    requires SameAccount(t.dev, r.dev) && Role(k, p.(main := main'))
    requires QueueShape(r.queue, k.run, main', p.stop) && Stages(r.dev, k.run, WaitCount(main'))
    requires Ongoing(r.dev, k.run, Unanswered(main'), Unanswered(main') || main'.Respond?)
    requires r.replies == k.run.replies +
      (if main'.Finished? then [Reply(k.run.requester, k.run.chain[0], main'.status, k.run.target)] else [])
    ensures Flying(f, d, k, r, p.(main := main'))
  {
    if AllObey(p.stops) {
      CountsKept(f, t.dev, r.dev, AddAt(k.e, HeldAt(k, p)));
    }
  }

  lemma StepRespondAside(f: Forest, d: seq<nat>, drv: Driver, k: Track, t: State, p: Phase)
    requires Setting(f, d, k) && Flying(f, d, k, t, p) && p.main.Respond?
    requires t.queue == MainEvents(k.run, p.main) + StopEvents(p.stop)
    ensures Flying(f, d, k, Step(f, drv, t), p.(main := Deliver(p.main.status))) && Step(f, drv, t).log == t.log
  {
    var y := ResponseForm(f, drv, t, k.run, p.main.status, p.stop);
    ResponseDev(t.dev, k.run, y);
    Aside(f, d, k, t, Step(f, drv, t), p, Deliver(p.main.status));
  }

  lemma StepDeliverAside(f: Forest, d: seq<nat>, drv: Driver, k: Track, t: State, p: Phase)
    requires Setting(f, d, k) && Flying(f, d, k, t, p) && p.main.Deliver?
    requires t.queue == MainEvents(k.run, p.main) + StopEvents(p.stop)
    ensures Flying(f, d, k, Step(f, drv, t), p.(main := Finished(p.main.status))) && Step(f, drv, t).log == t.log
  {
    hide Accounts, CallsMade;
    DeliverForm(f, drv, t, k.run, p.main.status, p.stop);
    Aside(f, d, k, t, Step(f, drv, t), p, Finished(p.main.status));
  }

  /** A failure reported down to a waiting clock. */
  lemma StepFailureDown(f: Forest, d: seq<nat>, drv: Driver, k: Track, t: State, p: Phase)
    requires Setting(f, d, k) && Flying(f, d, k, t, p) && p.main.Down?
    requires t.queue == MainEvents(k.run, p.main) + StopEvents(p.stop)
    ensures Flying(f, d, k, Step(f, drv, t), p.(main := AfterAnswer(p.main.k, p.main.status)))
    ensures Step(f, drv, t).log == t.log
  {
    hide CallsMade, Accounts;
    var run, j, status := k.run, p.main.k, p.main.status;
    var c := run.chain[j];
    assert run.level[c] == j && f[c] == Some(run.chain[j + 1]);
    var u := t.(queue := StopEvents(p.stop));
    assert t.queue[1..] == StopEvents(p.stop);
    assert Step(f, drv, t) == CompleteResponse(u, c, RUNNING, status);
    var r := CompleteForm(u, c, RUNNING, status);
    AnswerEvents(f, d, run, j, status, t.dev[c].initiator, t.dev[c].caller);
    assert r.queue == StopEvents(p.stop) + MainEvents(run, AfterAnswer(j, status));
    var x := t.dev[c].(stage := Idle, initiator := false);
    StagesPop(f, t.dev, x, run, j);
    OngoingAnswer(t.dev, run, c, x, j == 0);
    Aside(f, d, k, t, r, p, AfterAnswer(j, status));
  }
}
