/** What a request on a clock of a tree starts from, the events its call queues, and the event loop. */
module ClockTreeRequests {
  import opened FwkStatus
  import opened ClockTree
  import opened ClockTreeInvariant
  import opened ClockTreeSteps

  /** No clock is part of a request. */
  ghost predicate AllIdleIn(dev: seq<Dev>) {
    forall c :: 0 <= c < |dev| ==>
      dev[c].stage.Idle? && !dev[c].initiator && !dev[c].ongoing && dev[c].delayed == []
  }

  /** No event in flight: every clock is idle, and the reference counts are the holds plus the running children. */
  ghost predicate Quiescent(f: Forest, s: State, hold: seq<nat>) {
    WellFormed(f, s) && s.queue == [] && Counts(f, s.dev, hold) && AllIdleIn(s.dev)
  }

  ghost function RunOf(f: Forest, d: seq<nat>, s: State, requester: Entity, a: nat, state: nat): Run
    requires Depths(f, d) && a < |f|
  {
    var chain := ChainOf(f, d, a);
    Run(chain, LevelsOf(f, d, chain), requester, state, s.nextCookie, |s.log|, s.replies)
  }

  /** What a requester may ask: RUNNING, or STOPPED where it has a hold; and the counters have room. */
  ghost predicate MayRequest(f: Forest, hold: seq<nat>, a: nat, state: nat) {
    && a < |f| && Fits(f, hold)
    && (state == STOPPED || state == RUNNING)
    && (state == STOPPED ==> hold[a] > 0)
  }

  /** The two events queued by the call, and the state after the first of them. */
  lemma CallForm(f: Forest, drv: Driver, s: State, requester: Entity, a: nat, state: nat) returns (s1: State, t: State)
    requires WellFormed(f, s) && s.queue == [] && a < |f| && !IsSingleNode(f, a)
    requires !s.dev[a].ongoing && s.dev[a].stage.Idle? && s.dev[a].delayed == []
    ensures SetStateCall(f, drv, s, requester, a, state) == (s1, PENDING)
    ensures s1.queue == [Request(requester, a, s.nextCookie), PreRequest(requester, Clock(a), state, SUCCESS)]
    ensures s1.dev == s.dev[a := s.dev[a].(ongoing := true, initiator := true)] && WellFormed(f, s1)
    ensures t == Step(f, drv, s1) && WellFormed(f, t)
    ensures t.queue == [PreRequest(requester, Clock(a), state, SUCCESS)] && t.log == s.log && t.replies == s.replies
    ensures t.dev == s.dev[a := s.dev[a].(ongoing := true, initiator := true, cookie := s.nextCookie,
                                          delayed := [Delayed(s.nextCookie, requester)])]
  {
    var x := s.dev[a].(ongoing := true);
    var y := x.(initiator := true);
    var entry := Delayed(s.nextCookie, requester);
    var z := y.(cookie := s.nextCookie, delayed := [entry]);
    assert y.delayed + [entry] == [entry];
    s1 := SetStateCall(f, drv, s, requester, a, state).0;
    assert s1.queue == [Request(requester, a, s.nextCookie), PreRequest(requester, Clock(a), state, SUCCESS)];
    UpdateTwice(s.dev, a, x, y);
    t := Step(f, drv, s1);
    assert t == ProcessRequest(s1.(queue := s1.queue[1..]), requester, a, s.nextCookie);
    UpdateTwice(s.dev, a, y, z);
  }

  lemma FirstDev(f: Forest, dev: seq<Dev>, y: Dev, run: Run)
    requires run.chain != [] && run.chain[0] < |dev| && |run.level| == |dev|
    requires forall c :: 0 <= c < |dev| ==>
         dev[c].stage.Idle? && !dev[c].initiator && !dev[c].ongoing && dev[c].delayed == []
    requires y == dev[run.chain[0]].(ongoing := true, initiator := true, cookie := run.cookie,
                                     delayed := [Delayed(run.cookie, run.requester)])
    ensures Stages(dev[run.chain[0] := y], run, 0) && Ongoing(dev[run.chain[0] := y], run, true, true)
    ensures SameAccount(dev, dev[run.chain[0] := y])
  {
  }

  /** The holds after a request that was answered with `status`. */
  function HoldAfter(hold: seq<nat>, a: nat, state: nat, status: int): (r: seq<nat>)
    requires a < |hold| && (state == STOPPED ==> hold[a] > 0)
    ensures |r| == |hold|
  {
    if status != SUCCESS then hold
    else if state == STOPPED then hold[a := hold[a] - 1]
    else hold[a := hold[a] + 1]
  }

  lemma AllIdle(dev: seq<Dev>, run: Run)
    requires run.chain != [] && Stages(dev, run, 0) && Ongoing(dev, run, false, false)
    ensures AllIdleIn(dev)
  {
  }

  /** No request on the clock is accepted. */
  ghost predicate Busy(f: Forest, drv: Driver, r: State, a: nat) {
    && WellFormed(f, r) && a < |f|
    && forall other: Entity, again: nat :: SetStateCall(f, drv, r, other, a, again) == (r, E_BUSY)
  }

  // ---------- the event loop ----------

  /** An invariant of each step, with a count that goes down, over any number of steps. */
  lemma {:induction false} IterateKeeps(step: State -> State, p: (State, int) -> bool, s: State, m: int, n: nat)
      returns (m': int)
    requires p(s, m)
    requires forall x: State, k: int :: p(x, k) && x.queue != [] ==> p(step(x), k - 1)
    ensures p(Iterate(step, s, n), m')
    ensures Iterate(step, s, n).queue == [] || m' == m - n
    decreases n
  {
    if n == 0 || s.queue == [] {
      m' := m;
    } else {
      m' := IterateKeeps(step, p, step(s), m - 1, n - 1);
    }
  }

  lemma DrainDone(f: Forest, drv: Driver, s: State, n: nat)
    requires n == 0 || s.queue == []
    ensures Drain(f, drv, s, n) == s
  {
  }

  lemma DrainNotDone(f: Forest, drv: Driver, s: State, n: nat)
    requires s.queue != [] && Drain(f, drv, s, n).queue == []
    ensures n > 0
  {
  }

  lemma DrainUnfold(f: Forest, drv: Driver, s: State, t: State, n: nat)
    requires WellFormed(f, s) && s.queue != [] && n > 0 && t == Step(f, drv, s)
    ensures Drain(f, drv, s, n) == Drain(f, drv, t, n - 1)
  {
  }

  /** The call and its request event: what is left to drain is the pre-request at the requested clock. */
  lemma CallDrains(f: Forest, drv: Driver, s: State, requester: Entity, a: nat, state: nat, n: nat) returns (t: State)
    requires WellFormed(f, s) && s.queue == [] && a < |f| && !IsSingleNode(f, a) && n > 0
    requires !s.dev[a].ongoing && s.dev[a].stage.Idle? && s.dev[a].delayed == []
    ensures Drain(f, drv, SetStateCall(f, drv, s, requester, a, state).0, n) == Drain(f, drv, t, n - 1)
    ensures WellFormed(f, t) && t.log == s.log && t.replies == s.replies
    ensures t.queue == [PreRequest(requester, Clock(a), state, SUCCESS)]
    ensures t.dev == s.dev[a := s.dev[a].(ongoing := true, initiator := true, cookie := s.nextCookie,
                                          delayed := [Delayed(s.nextCookie, requester)])]
  {
    var s1;
    s1, t := CallForm(f, drv, s, requester, a, state);
    DrainUnfold(f, drv, s1, t, n);
  }
}
