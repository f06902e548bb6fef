/** The code of the clock module, step by step, proved against the specification of module ClockTree. */
module ClockModule {
  import opened FwkStatus
  import opened ClockTree
  import opened ClockTreeInvariant
  import opened ClockTreeHolds
  import opened ClockTreeRequests
  import opened ClockTreeCalls
  import opened ClockTreeFlights
  import opened ClockTreeRefusals
  import opened ClockTreeTheorems

  class ClockCtx {
    /** The configured parent of each clock. */
    const parent: Forest
    /** The drivers of the clocks: the status of every driver call. */
    const driver: Driver

    const table: array<Dev>
    var queue: seq<Event>
    var nextCookie: nat
    var log: seq<Record>
    var replies: seq<Event>

    ghost predicate Valid()
      reads this, table
    {
      WellFormed(parent, View())
    }

    ghost function View(): State
      reads this, table
    {
      State(table[..], queue, nextCookie, log, replies)
    }

    /** All clocks idle, none counted, the drivers in the given states. */
    constructor (parent: Forest, driver: Driver, running: seq<bool>)
      requires |running| == |parent|
      requires forall c :: 0 <= c < |parent| && parent[c].Some? ==> parent[c].value < |parent|
      ensures this.parent == parent && this.driver == driver && fresh(table)
      ensures Valid() && queue == [] && log == [] && replies == [] && table.Length == |parent|
      ensures forall c :: 0 <= c < |parent| ==>
        table[c] == Dev(running[c], 0, Idle, Other(0), false, false, 0, [])
    {
      this.parent, this.driver := parent, driver;
      queue, nextCookie, log, replies := [], 0, [], [];
      table := new Dev[|parent|](c requires 0 <= c < |running| =>
        Dev(running[c], 0, Idle, Other(0), false, false, 0, []));
    }

    // ---------- drivers and events ----------

    method CallDriver(call: Call) returns (status: int)
      requires Valid() && call.clock < |parent|
      modifies this, table
      ensures Valid() && status == Answer(driver, old(View()), call)
      ensures View() == AfterCall(driver, old(View()), call)
    {
      status := driver(|log|, call);
      log := log + [Record(call, status)];
      if call.SetState? && status == SUCCESS {
        table[call.clock] := table[call.clock].(running := call.state == RUNNING);
      }
    }

    method PutEvent(e: Event)
      requires Valid()
      modifies this
      ensures Valid() && View() == Put(old(View()), e)
    {
      queue := queue + [e];
      nextCookie := Increment(nextCookie);
    }

    // ---------- clock_tree_management.c ----------

    method CompleteResponse(c: nat, targetState: nat, callerStatus: int)
      requires Valid() && c < |parent|
      modifies this, table
      ensures Valid() && View() == ClockTree.CompleteResponse(old(View()), c, targetState, callerStatus)
    {
      table[c] := table[c].(stage := Idle);
      if !table[c].initiator {
        if targetState != STOPPED {
          PutEvent(PreRequest(Clock(c), table[c].caller, targetState, callerStatus));
        }
      } else {
        table[c] := table[c].(initiator := false);
        PutEvent(Response(c, callerStatus, targetState));
        assert View().dev == old(View()).dev[c := old(View()).dev[c].(stage := Idle, initiator := false)];
      }
    }

    /** Calls the driver; a PENDING answer is reported as E_SUPPORT. */
    method CompleteTransition(c: nat, targetState: nat) returns (status: int)
      requires Valid() && c < |parent|
      modifies this, table
      ensures Valid() && status == TransitionStatus(Answer(driver, old(View()), SetState(c, targetState)))
      ensures View() == AfterCall(driver, old(View()), SetState(c, targetState))
    {
      status := CallDriver(SetState(c, targetState));
      if status == PENDING {
        status := E_SUPPORT;
      }
    }

    method StartIdle(c: nat, callerStatus: int)
      requires Valid() && c < |parent|
      modifies this, table
      ensures Valid() && View() == IdleStart(parent, driver, old(View()), c, callerStatus)
    {
      if table[c].running {
        table[c] := table[c].(refCount := Increment(table[c].refCount));
        assert View() == SetRef(old(View()), c, Increment(old(View()).dev[c].refCount));
        CompleteResponse(c, RUNNING, callerStatus);
      } else if parent[c].None? {
        var status := CompleteTransition(c, RUNNING);
        ghost var called := View();
        if status == E_SUPPORT {
          return;
        } else if status == SUCCESS {
          table[c] := table[c].(refCount := Increment(table[c].refCount));
          assert View() == SetRef(called, c, Increment(called.dev[c].refCount));
        }
        CompleteResponse(c, RUNNING, status);
      } else {
        table[c] := table[c].(stage := WaitParent);
        PutEvent(PreRequest(Clock(c), Clock(parent[c].value), RUNNING, callerStatus));
      }
    }

    method StopIdle(c: nat, callerStatus: int)
      requires Valid() && c < |parent|
      modifies this, table
      ensures Valid() && View() == IdleStop(parent, driver, old(View()), c, callerStatus)
    {
      table[c] := table[c].(refCount := Decrement(table[c].refCount));
      assert View() == SetRef(old(View()), c, Decrement(old(View()).dev[c].refCount));
      if table[c].refCount == 0 {
        var status := CompleteTransition(c, STOPPED);
        if status == E_SUPPORT {
          return;
        }
        CompleteResponse(c, STOPPED, status);
        if parent[c].Some? {
          PutEvent(PreRequest(Clock(c), Clock(parent[c].value), STOPPED, status));
        }
        return;
      }
      CompleteResponse(c, STOPPED, callerStatus);
    }

    method ReplyFromParent(c: nat, targetState: nat, callerStatus: int)
      requires Valid() && c < |parent| && parent[c].Some?
      modifies this, table
      ensures Valid() && View() == ParentReply(parent, driver, old(View()), c, targetState, callerStatus)
    {
      var target, result := targetState, callerStatus;
      if result == SUCCESS {
        var status := CompleteTransition(c, target);
        ghost var called := View();
        if status == E_SUPPORT {
          return;
        }
        result := status;
        if status == SUCCESS {
          table[c] := table[c].(refCount := Increment(table[c].refCount));
          assert View() == SetRef(called, c, Increment(called.dev[c].refCount));
        } else {
          target := STOPPED;
          PutEvent(PreRequest(Clock(c), Clock(parent[c].value), target, result));
          target := RUNNING;
        }
      }
      CompleteResponse(c, target, result);
    }

    function ParentOf(c: nat): Option<Entity>
      requires c < |parent|
    {
      if parent[c].Some? then Some(Clock(parent[c].value)) else None
    }

    /** One pre-request event. A clock that waits for its parent answers anybody else that it is busy. */
    method ProcessStateEvent(source: Entity, c: nat, targetState: nat, callerStatus: int)
      requires Valid() && c < |parent|
      modifies this, table
      ensures Valid() && View() == ProcessState(parent, driver, old(View()), source, c, targetState, callerStatus)
      ensures old(table[c]).stage.WaitParent? && Some(source) != ParentOf(c) ==>
        && queue == old(queue) + [PreRequest(Clock(c), source, targetState, E_BUSY)]
        && log == old(log) && replies == old(replies) && table[..] == old(table[..])
    {
      if table[c].stage.Idle? {
        table[c] := table[c].(caller := source);
        assert View() == old(View()).(dev := old(View()).dev[c := old(View()).dev[c].(caller := source)]);
        var status := CallDriver(GetState(c, targetState));
        if status == PENDING {
          return;
        }
        if status != SUCCESS {
          CompleteResponse(c, targetState, status);
        } else if targetState == RUNNING {
          StartIdle(c, callerStatus);
        } else if targetState == STOPPED {
          StopIdle(c, callerStatus);
        }
      } else if parent[c].None? || source != Clock(parent[c].value) {
        PutEvent(PreRequest(Clock(c), source, targetState, E_BUSY));
      } else {
        ReplyFromParent(c, targetState, callerStatus);
      }
    }

    // ---------- mod_clock.c ----------

    method ProcessRequestEvent(source: Entity, c: nat, cookie: nat)
      requires Valid() && c < |parent|
      modifies table
      ensures Valid() && View() == ProcessRequest(old(View()), source, c, cookie)
    {
      table[c] := table[c].(cookie := cookie, delayed := table[c].delayed + [Delayed(cookie, source)]);
    }

    /** The delayed response at position `i` is the first with the cookie of the request. */
    static predicate FirstWith(d: Dev, i: nat)
      requires i < |d.delayed|
    {
      d.delayed[i].cookie == d.cookie && forall j :: 0 <= j < i ==> d.delayed[j].cookie != d.cookie
    }

    method ProcessResponseEvent(c: nat, status: int, state: nat)
      requires Valid() && c < |parent|
      modifies this, table
      ensures Valid() && View() == ProcessResponse(old(View()), c, status, state)
      ensures (forall x :: x in old(table[c]).delayed ==> x.cookie != old(table[c]).cookie) ==> View() == old(View())
      ensures forall i :: 0 <= i < |old(table[c]).delayed| && FirstWith(old(table[c]), i) ==>
        && queue == old(queue) + [Reply(old(table[c]).delayed[i].requester, c, status, state)]
        && log == old(log) && OnlyClock(c) && !table[c].ongoing
        && table[c].delayed == old(table[c]).delayed[..i] + old(table[c]).delayed[i + 1..]
    {
      var d := table[c];
      var i := FindDelayed(d.delayed, d.cookie);
      if i == |d.delayed| {
        return;
      }
      table[c] := d.(ongoing := false, delayed := d.delayed[..i] + d.delayed[i + 1..]);
      PutEvent(Reply(d.delayed[i].requester, c, status, state));
    }

    /** No other clock has changed. */
    twostate predicate OnlyClock(c: nat)
      reads this, table
    {
      c < table.Length && forall x :: 0 <= x < table.Length && x != c ==> table[x] == old(table[x])
    }

    method CreateAsyncRequest(requester: Entity, c: nat)
      requires Valid() && c < |parent|
      modifies this, table
      ensures Valid() && View() == ClockTree.CreateAsyncRequest(old(View()), requester, c)
      ensures queue == old(queue) + [Request(requester, c, old(nextCookie))] && log == old(log)
      ensures OnlyClock(c) && table[c] == old(table[c]).(ongoing := true) && replies == old(replies)
    {
      PutEvent(Request(requester, c, nextCookie));
      table[c] := table[c].(ongoing := true);
    }

    /** What `clock_set_state` makes of a clock with neither parent nor children: one driver call, and its answer. */
    twostate predicate SingleSet(requester: Entity, c: nat, state: nat, status: int)
      reads this, table
    {
      && status == driver(|old(log)|, SetState(c, state))
      && log == old(log) + [Record(SetState(c, state), status)] && replies == old(replies) && OnlyClock(c)
      && (status == PENDING ==>
            && queue == old(queue) + [Request(requester, c, old(nextCookie))]
            && table[c] == old(table[c]).(ongoing := true))
      && (status != PENDING ==>
            && queue == old(queue) && nextCookie == old(nextCookie)
            && table[c] == old(table[c]).(running :=
                 if status == SUCCESS then state == RUNNING else old(table[c]).running))
    }

    /** What it makes of a clock of a tree: the request and its first event are queued, and no driver is called yet. */
    twostate predicate TreeSet(requester: Entity, c: nat, state: nat, status: int)
      reads this, table
    {
      && status == PENDING && log == old(log) && replies == old(replies) && OnlyClock(c)
      && queue == old(queue) +
           [Request(requester, c, old(nextCookie)), PreRequest(requester, Clock(c), state, SUCCESS)]
      && table[c] == old(table[c]).(ongoing := true, initiator := true)
    }

    /** `clock_set_state`: a clock that is part of a request is busy, and a single one has its driver's status. */
    method RequestState(requester: Entity, c: nat, state: nat) returns (status: int)
      requires Valid() && c < |parent|
      modifies this, table
      ensures Valid()
      ensures (View(), status) == SetStateCall(parent, driver, old(View()), requester, c, state)
      ensures if old(table[c]).ongoing || !old(table[c]).stage.Idle? then status == E_BUSY && View() == old(View())
        else if parent[c].None? && Some(c) !in parent then SingleSet(requester, c, state, status)
        else TreeSet(requester, c, state, status)
    {
      if table[c].ongoing || !table[c].stage.Idle? {
        return E_BUSY;
      }
      var single := IsSingle(c);
      if single {
        status := CallDriver(SetState(c, state));
        if status == PENDING {
          CreateAsyncRequest(requester, c);
        }
        return;
      }
      CreateAsyncRequest(requester, c);
      ghost var s1 := View();
      table[c] := table[c].(initiator := true);
      assert View() == s1.(dev := s1.dev[c := s1.dev[c].(initiator := true)]);
      PutEvent(PreRequest(requester, Clock(c), state, SUCCESS));
      status := PENDING;
    }

    /** No parent and no children. */
    method IsSingle(c: nat) returns (single: bool)
      requires Valid() && c < |parent|
      ensures single == IsSingleNode(parent, c)
    {
      if parent[c].Some? {
        return false;
      }
      for x := 0 to |parent|
        invariant forall y :: 0 <= y < x ==> parent[y] != Some(c)
      {
        if parent[x] == Some(c) {
          return false;
        }
      }
      return true;
    }

    /** Takes the event at the head of the queue and processes it. */
    method ProcessNextEvent()
      requires Valid() && queue != []
      modifies this, table
      ensures Valid() && View() == Step(parent, driver, old(View()))
    {
      var e := queue[0];
      queue := queue[1..];
      match e
      case PreRequest(source, target, targetState, callerStatus) =>
        if target.Clock? && target.index < |parent| {
          ProcessStateEvent(source, target.index, targetState, callerStatus);
        }
      case Request(source, c, cookie) =>
        if c < |parent| {
          ProcessRequestEvent(source, c, cookie);
        }
      case Response(c, status, state) =>
        if c < |parent| {
          ProcessResponseEvent(c, status, state);
        }
      case Reply(_, _, _, _) =>
        replies := replies + [e];
    }

    method ProcessOne(ghost left: nat)
      requires Valid() && queue != [] && left > 0
      modifies this, table
      ensures Valid() && Drain(parent, driver, View(), left - 1) == Drain(parent, driver, old(View()), left)
    {
      ghost var before := View();
      ProcessNextEvent();
      DrainUnfold(parent, driver, before, View(), left);
    }

    /**
      Processes events until the queue is empty. `n` is a number of events after which it is known to be empty;
      it bounds the loop and is not part of the code.
    */
    method ProcessQueue(ghost n: nat)
      requires Valid() && Drain(parent, driver, View(), n).queue == []
      modifies this, table
      ensures Valid() && View() == Drain(parent, driver, old(View()), n) && queue == []
    {
      ghost var left: nat := n;
      ghost var end := Drain(parent, driver, View(), n);
      while queue != []
        invariant Valid()
        invariant end == Drain(parent, driver, View(), left)
        decreases left
      {
        DrainNotDone(parent, driver, View(), left);
        ProcessOne(left);
        left := left - 1;
      }
      DrainDone(parent, driver, View(), left);
    }

    /**
      A whole request on a clock of a tree, the queue drained, under any driver: it is answered once, with the first
      status a driver failed with, the tree settled and the holds accounted for, exactly when it concludes; and each
      running clock has a running parent exactly when refusals to stop reach up.
    */
    method ServeRequest(requester: Entity, c: nat, state: nat, ghost d: seq<nat>, ghost hold: seq<nat>)
      requires Valid() && Depths(parent, d) && Quiescent(parent, View(), hold)
      requires MayRequest(parent, hold, c, state) && !IsSingleNode(parent, c)
      modifies this, table
      ensures Valid() && queue == [] && log == LogOf(parent, d, driver, old(View()), c, state)
      ensures Served(parent, old(View()), View(), hold, requester, c, state) <==>
        Concludes(LogOf(parent, d, driver, old(View()), c, state), |old(log)|, state)
      ensures TreeSafe(parent, View()) <==> RefusalsReach(log, StopsFrom(log, |old(log)|, state))
    {
      ghost var n := 3 * d[c] + 4;
      ghost var r := SetStateServed(parent, d, driver, View(), hold, requester, c, state, n);
      ghost var r', q := StopsRefused(parent, d, driver, View(), hold, requester, c, state, n);
      var answer := RequestState(requester, c, state);
      ProcessQueue(n);
    }

    // ---------- start of the module ----------

    /** The number of running children of `p` among the clocks below `n`. */
    static ghost function CountBelow(f: Forest, dev: seq<Dev>, p: nat, n: nat): nat
      requires n <= |f| == |dev|
    {
      if n == 0 then 0
      else CountBelow(f, dev, p, n - 1) + (if f[n - 1] == Some(p) && dev[n - 1].running then 1 else 0)
    }

    static lemma CountBelowBound(f: Forest, dev: seq<Dev>, n: nat)
      requires n <= |f| == |dev|
      ensures forall p :: 0 <= p < |f| ==> CountBelow(f, dev, p, n) <= n
    {
      if n == 0 {
      } else {
        CountBelowBound(f, dev, n - 1);
      }
    }

    static lemma CountBelowKids(f: Forest, dev: seq<Dev>, p: nat, n: nat) returns (kids: set<nat>)
      requires n <= |f| == |dev|
      ensures forall x: nat :: x in kids <==> x < n && f[x] == Some(p) && dev[x].running
      ensures CountBelow(f, dev, p, n) == |kids|
    {
      if n == 0 {
        kids := {};
      } else {
        kids := CountBelowKids(f, dev, p, n - 1);
        if f[n - 1] == Some(p) && dev[n - 1].running {
          kids := kids + {n - 1};
        }
      }
    }

    /** What connecting the clocks below `n` has built from the initial table `dev`. */
    static ghost predicate Connected(f: Forest, dev: seq<Dev>, table: seq<Dev>, children: seq<seq<nat>>, n: nat)
      requires n <= |f| == |dev|
    {
      && |table| == |children| == |f|
      && (forall p :: 0 <= p < |f| ==> children[p] == ChildrenBelow(f, p, n))
      && (forall p :: 0 <= p < |f| ==> table[p] == dev[p].(refCount := CountBelow(f, dev, p, n)))
    }

    static lemma ConnectedStep(f: Forest, dev: seq<Dev>, table: seq<Dev>, children: seq<seq<nat>>, c: nat,
                               table': seq<Dev>, children': seq<seq<nat>>)
      requires c < |f| == |dev| == |table'| == |children'| && Connected(f, dev, table, children, c)
      requires forall p :: 0 <= p < |f| ==> children'[p] == children[p] + (if f[c] == Some(p) then [c] else [])
      requires forall p :: 0 <= p < |f| ==> table'[p] == table[p].(refCount := table[p].refCount +
          (if f[c] == Some(p) && table[c].running then 1 else 0))
      ensures Connected(f, dev, table', children', c + 1)
    {
    }

    static lemma ConnectedRoom(f: Forest, dev: seq<Dev>, table: seq<Dev>, children: seq<seq<nat>>, c: nat)
      requires c < |f| == |dev| && Connected(f, dev, table, children, c) && |f| + 1 < TWO32
      ensures forall p :: 0 <= p < |f| ==> table[p].refCount + 1 < TWO32
    {
      CountBelowBound(f, dev, c);
    }

    /**
      The connected tree: children lists hold each child once in order, every count is the number of running
      children, and the result is settled without holds exactly when every clock of a tree is stopped.
    */
    static lemma ConnectedTree(f: Forest, d: seq<nat>, dev: seq<Dev>, table: seq<Dev>, children: seq<seq<nat>>,
        zero: seq<nat>)
      requires Depths(f, d) && |dev| == |f| == |zero| && Connected(f, dev, table, children, |f|)
      requires forall c :: 0 <= c < |f| ==> zero[c] == 0
      ensures forall p: nat, x: nat :: p < |f| ==> (x in children[p] <==> x < |f| && f[x] == Some(p))
      ensures forall p :: 0 <= p < |f| ==> forall i, j :: 0 <= i < j < |children[p]| ==> children[p][i] < children[p][j]
      ensures forall p :: 0 <= p < |f| ==> table[p].refCount == |RunningKids(f, table, p)|
      ensures Counts(f, table, zero) <==> forall c :: 0 <= c < |f| && !IsSingleNode(f, c) ==> !dev[c].running
    {
      forall p: nat | p < |f|
        ensures table[p].refCount == |RunningKids(f, table, p)|
      {
        var kids := CountBelowKids(f, dev, p, |f|);
        assert kids == RunningKids(f, table, p);
      }
      forall p: nat | p < |f|
        ensures forall x: nat :: x in children[p] <==> x < |f| && f[x] == Some(p)
        ensures forall i, j :: 0 <= i < j < |children[p]| ==> children[p][i] < children[p][j]
      {
        ChildrenListed(f, p, |f|);
      }
      ConnectedExactlyWhenStopped(f, d, table, zero);
    }

    /** At most one more driver call. */
    static ghost predicate Grows(before: seq<Record>, log: seq<Record>) {
      |before| <= |log| <= |before| + 1 && before == log[..|before|]
    }

    static lemma FailureContinues(before: seq<Record>, log: seq<Record>, from: nat)
      requires from <= |before| && Grows(before, log)
      requires FirstFailure(before[from..]) == SUCCESS
      ensures FirstFailure(log[from..]) == FirstFailure(log[|before|..])
    {
      if |log| == |before| {
        assert log[from..] == before[from..];
      } else {
        assert log[from..] == before[from..] + [log[|before|]];
        FirstFailureAppend(before[from..], log[|before|]);
        assert log[|before|..][1..] == [];
      }
    }

    /** Links one clock to its parent. */
    method ConnectClock(c: nat, children: array<seq<nat>>, ghost dev: seq<Dev>) returns (status: int)
      requires Valid() && c < |parent| == children.Length == |dev| && |parent| + 1 < TWO32
      requires Connected(parent, dev, table[..], children[..], c)
      modifies this, table, children
      ensures Valid() && queue == old(queue) && replies == old(replies)
      ensures status == SUCCESS ==> Connected(parent, dev, table[..], children[..], c + 1)
      ensures Grows(old(log), log) && status == TransitionStatus(FirstFailure(log[|old(log)|..]))
      ensures parent[c].Some? ==> |log| > |old(log)| && log[|old(log)|].call == GetState(c, RUNNING)
    {
      ghost var before, lists := table[..], children[..];
      ConnectedRoom(parent, dev, before, lists, c);
      if parent[c].None? {
        ConnectedStep(parent, dev, before, lists, c, before, lists);
        return SUCCESS;
      }
      var p := parent[c].value;
      children[p] := children[p] + [c];
      status := CallDriver(GetState(c, RUNNING));
      if status == PENDING {
        return E_SUPPORT;
      }
      if status == SUCCESS {
        if table[c].running {
          table[p] := table[p].(refCount := Increment(table[p].refCount));
        }
        ConnectedStep(parent, dev, before, lists, c, table[..], children[..]);
      }
    }

    /** `clock_connect_tree`: links every clock to its parent and counts the running children of each clock. */
    method ConnectTree() returns (children: array<seq<nat>>, status: int)
      requires Valid() && |parent| + 1 < TWO32
      requires forall c :: 0 <= c < table.Length ==> table[c].refCount == 0
      modifies this, table
      ensures Valid() && fresh(children) && children.Length == |parent|
      ensures status == SUCCESS ==> Connected(parent, old(table[..]), table[..], children[..], |parent|)
      ensures |old(log)| <= |log| && status == TransitionStatus(FirstFailure(log[|old(log)|..]))
      ensures queue == old(queue) && replies == old(replies)
    {
      children := new seq<nat>[|parent|](_ => []);
      status := SUCCESS;
      assert Connected(parent, table[..], table[..], children[..], 0) && log[|old(log)|..] == [];
      hide Connected, FirstFailure, Grows;
      ghost var dev := table[..];
      for c := 0 to |parent|
        invariant Valid() && queue == old(queue) && replies == old(replies)
        invariant Connected(parent, dev, table[..], children[..], c)
        invariant |old(log)| <= |log| && FirstFailure(log[|old(log)|..]) == SUCCESS && status == SUCCESS
      {
        ghost var before := log;
        status := ConnectClock(c, children, dev);
        FailureContinues(before, log, |old(log)|);
        if status != SUCCESS {
          return;
        }
      }
    }
  }
}
