/**
  What holds between any two events of a set-state request.

  A request in flight is described by a chain position (`Main`) and at most one STOP message on its way
  up (`Stop`). The central invariant counts references: every reference count is the number of outstanding
  external holds, plus the running children, plus the messages in flight that stand for a reference.
*/
module ClockTreeInvariant {
  import opened FwkStatus
  import opened ClockTree

  // ---------- the forest ----------

  /** `d` gives the distance of every clock to its root; it exists exactly when the forest is acyclic. */
  ghost predicate Depths(f: Forest, d: seq<nat>) {
    && |d| == |f|
    && (forall c :: 0 <= c < |f| && f[c].Some? ==> f[c].value < |f|)
    && (forall c :: 0 <= c < |f| && f[c].None? ==> d[c] == 0)
    && (forall c {:trigger d[f[c].value]} :: 0 <= c < |f| && f[c].Some? ==> d[c] == d[f[c].value] + 1)
  }

  /** The clocks from `chain[0]` up to its root. */
  ghost predicate IsChain(f: Forest, d: seq<nat>, chain: seq<nat>) {
    && chain != []
    && (forall i :: 0 <= i < |chain| ==> chain[i] < |f| && chain[i] < |d|)
    && (forall i {:trigger d[chain[i]]} :: 0 <= i < |chain| ==> d[chain[i]] == |chain| - 1 - i)
    && (forall i {:trigger f[chain[i]]} :: 0 <= i < |chain| ==>
          f[chain[i]] == if i + 1 < |chain| then Some(chain[i + 1]) else None)
  }

  /** `level` inverts the chain. */
  ghost predicate IsLevels(f: Forest, chain: seq<nat>, level: seq<int>) {
    && |level| == |f|
    && (forall i :: 0 <= i < |chain| ==> chain[i] < |level|)
    && (forall i {:trigger level[chain[i]]} :: 0 <= i < |chain| ==> level[chain[i]] == i)
    && (forall c {:trigger level[c]} :: 0 <= c < |level| && 0 <= level[c] ==>
          level[c] < |chain| && chain[level[c]] == c)
  }

  ghost function ChainOf(f: Forest, d: seq<nat>, a: nat): (chain: seq<nat>)
    requires Depths(f, d) && a < |f|
    ensures IsChain(f, d, chain) && chain[0] == a && |chain| == d[a] + 1
    decreases d[a]
  {
    if f[a].None? then [a] else [a] + ChainOf(f, d, f[a].value)
  }

  ghost function LevelsOf(f: Forest, d: seq<nat>, chain: seq<nat>): (level: seq<int>)
    requires |d| == |f| && IsChain(f, d, chain)
    ensures IsLevels(f, chain, level)
  {
    seq(|f|, c requires 0 <= c < |f| =>
      var i := |chain| - 1 - d[c];
      if 0 <= i && chain[i] == c then i else -1)
  }

  ghost function RunningKids(f: Forest, dev: seq<Dev>, p: nat): (r: set<nat>)
    requires |dev| == |f|
  {
    set c: nat | c < |f| && f[c] == Some(p) && dev[c].running
  }

  /** The documented rule: an enabled clock has an enabled parent. */
  ghost predicate TreeSafe(f: Forest, s: State) {
    && WellFormed(f, s)
    && forall c {:trigger s.dev[f[c].value]} :: 0 <= c < |f| && f[c].Some? && s.dev[c].running ==>
         s.dev[f[c].value].running
  }

  /** The children of `p` among the clocks below `n`, in order of their index. */
  ghost function ChildrenBelow(f: Forest, p: nat, n: nat): seq<nat>
    requires n <= |f|
  {
    if n == 0 then []
    else ChildrenBelow(f, p, n - 1) + (if f[n - 1] == Some(p) then [n - 1] else [])
  }

  /** The built list holds exactly the children, each once. */
  lemma {:induction false} ChildrenListed(f: Forest, p: nat, n: nat)
    requires n <= |f|
    ensures forall x: nat :: x in ChildrenBelow(f, p, n) <==> x < n && f[x] == Some(p)
    ensures forall i, j :: 0 <= i < j < |ChildrenBelow(f, p, n)| ==>
      ChildrenBelow(f, p, n)[i] < ChildrenBelow(f, p, n)[j]
  {
    if n == 0 {
    } else {
      ChildrenListed(f, p, n - 1);
      var l := ChildrenBelow(f, p, n - 1);
      assert forall i :: 0 <= i < |l| ==> l[i] in l;
    }
  }

  // ---------- reference counts ----------

  /** References not explained by running children: holds of requesters and messages in flight. */
  ghost function AddAt(e: seq<nat>, at: Option<nat>): (r: seq<nat>)
    ensures |r| == |e|
  {
    if at.Some? && at.value < |e| then e[at.value := e[at.value] + 1] else e
  }

  ghost predicate Counts(f: Forest, dev: seq<Dev>, e: seq<nat>) {
    && |dev| == |f| == |e|
    && (forall p {:trigger RunningKids(f, dev, p)} :: 0 <= p < |f| ==>
          dev[p].refCount == e[p] + |RunningKids(f, dev, p)|)
    && (forall p {:trigger dev[p]} :: 0 <= p < |f| && !IsSingleNode(f, p) ==> (dev[p].running <==> dev[p].refCount > 0))
  }

  lemma RefIs(f: Forest, dev: seq<Dev>, e: seq<nat>, p: nat)
    requires Counts(f, dev, e) && p < |f|
    ensures dev[p].refCount == e[p] + |RunningKids(f, dev, p)|
    ensures RunningKids(f, dev, p) != {} ==> dev[p].refCount > 0
  {
  }

  lemma KidsSame(f: Forest, dev: seq<Dev>, dev': seq<Dev>)
    requires |dev| == |dev'| == |f|
    requires forall c :: 0 <= c < |f| ==> dev[c].running == dev'[c].running
    ensures forall p :: 0 <= p < |f| ==> RunningKids(f, dev, p) == RunningKids(f, dev', p)
  {
    forall p | 0 <= p < |f|
      ensures RunningKids(f, dev, p) == RunningKids(f, dev', p)
    {
    }
  }

  /** Starting or stopping one clock changes the running children of its parent by one, and of no other clock. */
  lemma KidsToggle(f: Forest, dev: seq<Dev>, dev': seq<Dev>, c: nat)
    requires |dev| == |dev'| == |f| && c < |f|
    requires forall x :: 0 <= x < |f| && x != c ==> dev[x].running == dev'[x].running
    requires !dev[c].running && dev'[c].running
    ensures forall p :: 0 <= p < |f| && f[c] != Some(p) ==> RunningKids(f, dev', p) == RunningKids(f, dev, p)
    ensures f[c].Some? ==> |RunningKids(f, dev', f[c].value)| == |RunningKids(f, dev, f[c].value)| + 1
  {
    forall p | 0 <= p < |f| && f[c] != Some(p)
      ensures RunningKids(f, dev', p) == RunningKids(f, dev, p)
    {
    }
    if f[c].Some? {
      var p := f[c].value;
      assert RunningKids(f, dev', p) == RunningKids(f, dev, p) + {c};
      assert c !in RunningKids(f, dev, p);
    }
  }

  lemma SizeBound(s: set<nat>, n: nat)
    requires forall x :: x in s ==> x < n
    ensures |s| <= n
  {
    if n == 0 {
      assert s == {};
    } else {
      SizeBound(s - {n - 1}, n - 1);
      if n - 1 in s {
        assert |s| == |s - {n - 1}| + 1;
      } else {
        assert s - {n - 1} == s;
      }
    }
  }

  lemma KidsBound(f: Forest, dev: seq<Dev>, p: nat)
    requires |dev| == |f|
    ensures |RunningKids(f, dev, p)| <= |f|
  {
    SizeBound(RunningKids(f, dev, p), |f|);
  }

  ghost predicate SameAccount(dev: seq<Dev>, dev': seq<Dev>) {
    |dev| == |dev'| && forall x :: 0 <= x < |dev| ==>
      dev[x].running == dev'[x].running && dev[x].refCount == dev'[x].refCount
  }

  /** The account of clock `c` becomes (running, ref); the others keep theirs. */
  ghost predicate Changed(dev: seq<Dev>, dev': seq<Dev>, c: nat, running: bool, ref: nat)
    requires c < |dev|
  {
    && |dev| == |dev'|
    && (forall x :: 0 <= x < |dev| && x != c ==>
          dev[x].running == dev'[x].running && dev[x].refCount == dev'[x].refCount)
    && dev'[c].running == running && dev'[c].refCount == ref
  }

  lemma CountsKept(f: Forest, dev: seq<Dev>, dev': seq<Dev>, e: seq<nat>)
    requires Counts(f, dev, e) && SameAccount(dev, dev')
    ensures Counts(f, dev', e)
  {
    KidsSame(f, dev, dev');
  }

  /** A running clock takes one more reference, or gives one back and keeps some. */
  lemma CountsShift(f: Forest, dev: seq<Dev>, dev': seq<Dev>, e: seq<nat>, c: nat, ref: nat)
    requires Counts(f, dev, e) && c < |f|
    requires dev[c].running && ref > 0 && Changed(dev, dev', c, true, ref)
    requires e[c] + ref >= dev[c].refCount
    ensures Counts(f, dev', e[c := e[c] + ref - dev[c].refCount])
  {
    KidsSame(f, dev, dev');
  }

  /** A clock starts; the reference its parent held for it is now the running child. */
  lemma CountsStart(f: Forest, dev: seq<Dev>, dev': seq<Dev>, e: seq<nat>, c: nat)
    requires Counts(f, dev, e) && c < |f|
    requires !IsSingleNode(f, c) && !dev[c].running && Changed(dev, dev', c, true, 1)
    requires f[c].Some? ==> f[c].value < |f| && f[c].value != c && e[f[c].value] > 0
    ensures Counts(f, dev',
      if f[c].Some? then e[f[c].value := e[f[c].value] - 1][c := e[c] + 1] else e[c := e[c] + 1])
  {
    KidsToggle(f, dev, dev', c);
  }

  /** A clock gives back its last reference and stops; its parent now owes a reference to the STOP message. */
  lemma CountsStop(f: Forest, dev: seq<Dev>, dev': seq<Dev>, e: seq<nat>, c: nat)
    requires Counts(f, dev, e) && c < |f|
    requires !IsSingleNode(f, c) && dev[c].refCount == 1 && e[c] > 0 && Changed(dev, dev', c, false, 0)
    requires f[c].Some? ==> f[c].value < |f| && f[c].value != c
    ensures Counts(f, dev',
      if f[c].Some? then e[c := e[c] - 1][f[c].value := e[f[c].value] + 1] else e[c := e[c] - 1])
  {
    KidsToggle(f, dev', dev, c);
  }

  /** Reference counting alone implies the documented rule. */
  lemma CountsSafe(f: Forest, s: State, e: seq<nat>)
    requires WellFormed(f, s) && Counts(f, s.dev, e)
    ensures TreeSafe(f, s)
  {
    forall c | 0 <= c < |f| && f[c].Some? && s.dev[c].running
      ensures s.dev[f[c].value].running
    {
      assert c in RunningKids(f, s.dev, f[c].value);
      RefIs(f, s.dev, e, f[c].value);
    }
  }

  // ---------- a request in flight ----------

  /**
    Where the request is. `k` counts levels above the requested clock. A request is lost when the answer of a driver
    makes the code drop it: `w` clocks are left waiting, and `ack` may hold a reference for a clock that never started.
  */
  datatype Main =
    | Climb(k: nat)
    | Down(k: nat, status: int)
    | StopPending
    | Respond(status: int)
    | Deliver(status: int)
    | Finished(status: int)
    | Lost(w: nat, ack: Option<nat>)

  /** A STOP message in flight. */
  datatype Stop = NoStop | Stop(at: nat, source: Entity, status: int)

  /**
    The request: the chain above its clock, the level of every clock on that chain (-1 off it), requester,
    target state and cookie, and where the logs stood when it was made.
  */
  datatype Run = Run(
    chain: seq<nat>,
    level: seq<int>,
    requester: Entity,
    target: nat,
    cookie: nat,
    from: nat,
    replies: seq<Event>)

  /** Holds leave room for the counters: no reference count can reach 2^32. */
  ghost predicate Fits(f: Forest, hold: seq<nat>) {
    |hold| == |f| && forall c :: 0 <= c < |f| ==> hold[c] + |f| + 4 < TWO32
  }

  /** What stays fixed while a request is in flight. `hold` counts the holds before the request. */
  ghost predicate Fixed(f: Forest, d: seq<nat>, hold: seq<nat>, run: Run) {
    && |d| == |f|
    && (forall c :: 0 <= c < |f| && f[c].Some? ==> f[c].value < |f|)
    && IsChain(f, d, run.chain) && IsLevels(f, run.chain, run.level) && !IsSingleNode(f, run.chain[0])
    && (run.target == STOPPED || run.target == RUNNING)
    && Fits(f, hold) && (run.target == STOPPED ==> hold[run.chain[0]] > 0)
  }

  ghost predicate Position(f: Forest, d: seq<nat>, run: Run, main: Main, stop: Stop) {
    && run.chain != [] && run.target == RUNNING
    && (stop.Stop? ==> stop.at < |f| == |d| && !IsSingleNode(f, stop.at))
    && match main
       case Climb(k) => k < |run.chain| && stop.NoStop?
       case Down(k, status) => k + 1 < |run.chain| && (status == SUCCESS ==> stop.NoStop?)
       case Lost(w, _) => w <= |run.chain| && stop.NoStop?
       case StopPending => false
       case _ => true
  }

  ghost function MainEvents(run: Run, main: Main): seq<Event>
    requires run.chain != []
  {
    match main
    case Climb(k) =>
      if k < |run.chain| then
        var source := if k == 0 then run.requester else Clock(run.chain[k - 1]);
        [PreRequest(source, Clock(run.chain[k]), RUNNING, SUCCESS)]
      else []
    case Down(k, status) =>
      if k + 1 < |run.chain| then
        [PreRequest(Clock(run.chain[k + 1]), Clock(run.chain[k]), RUNNING, status)]
      else []
    case StopPending => []
    case Respond(status) => [Response(run.chain[0], status, run.target)]
    case Deliver(status) => [Reply(run.requester, run.chain[0], status, run.target)]
    case Finished(_) => []
    case Lost(_, _) => []
  }

  ghost function StopEvents(stop: Stop): seq<Event> {
    if stop.NoStop? then [] else [PreRequest(stop.source, Clock(stop.at), STOPPED, stop.status)]
  }

  ghost predicate QueueShape(q: seq<Event>, run: Run, main: Main, stop: Stop)
    requires run.chain != []
  {
    || q == MainEvents(run, main) + StopEvents(stop)
    || q == StopEvents(stop) + MainEvents(run, main)
  }

  /** Number of clocks of the chain that wait for their parent. */
  ghost function WaitCount(main: Main): nat {
    match main
    case Climb(k) => k
    case Down(k, _) => k + 1
    case Lost(w, _) => w
    case _ => 0
  }

  /** The clocks below level `w` wait for their parent, not running, each knowing the clock below it. */
  ghost predicate Stages(dev: seq<Dev>, run: Run, w: nat) {
    && |run.level| == |dev| && w <= |run.chain|
    && forall c {:trigger dev[c]} :: 0 <= c < |dev| ==>
      && (dev[c].stage.WaitParent? <==> 0 <= run.level[c] < w)
      && (0 <= run.level[c] < w ==> !dev[c].running)
      && (0 < run.level[c] < w ==> dev[c].caller == Clock(run.chain[run.level[c] - 1]))
  }

  ghost predicate Unanswered(main: Main) {
    main.Climb? || main.Down? || main.StopPending? || main.Lost?
  }

  /** Only the requested clock answers the requester; until then it is busy and keeps exactly one response back. */
  ghost predicate Ongoing(dev: seq<Dev>, run: Run, unanswered: bool, live: bool)
    requires run.chain != []
  {
    forall c :: 0 <= c < |dev| ==>
      && (dev[c].initiator <==> c == run.chain[0] && unanswered)
      && (dev[c].ongoing <==> c == run.chain[0] && live)
      && dev[c].delayed == (if c == run.chain[0] && live then [Delayed(run.cookie, run.requester)] else [])
      && (c == run.chain[0] && live ==> dev[c].cookie == run.cookie)
  }

  /** The first status other than SUCCESS in a sequence of driver calls. */
  ghost function FirstFailure(log: seq<Record>): int {
    if log == [] then SUCCESS
    else if log[0].status != SUCCESS then log[0].status
    else FirstFailure(log[1..])
  }

  lemma FirstFailureAppend(log: seq<Record>, r: Record)
    ensures FirstFailure(log + [r]) ==
      if FirstFailure(log) != SUCCESS then FirstFailure(log) else r.status
  {
    if log == [] {
      assert (log + [r])[1..] == [];
    } else {
      assert (log + [r])[1..] == log[1..] + [r];
      FirstFailureAppend(log[1..], r);
    }
  }

  /** The code drops the request without an answer: a query answered PENDING, or a transition PENDING or E_SUPPORT. */
  predicate Drops(rec: Record) {
    rec.status == PENDING || (rec.call.SetState? && rec.status == E_SUPPORT)
  }

  predicate NoneDrops(log: seq<Record>) {
    forall i :: 0 <= i < |log| ==> !Drops(log[i])
  }

  /** Of the calls from `from` on none dropped the request, and `status` is the first failure among them. */
  ghost predicate Told(log: seq<Record>, from: nat, status: int) {
    from <= |log| && NoneDrops(log[from..]) && FirstFailure(log[from..]) == status
  }

  ghost function StatusSoFar(main: Main): int
    requires !main.Lost?
  {
    match main
    case Climb(_) => SUCCESS
    case StopPending => SUCCESS
    case Down(_, status) => status
    case Respond(status) => status
    case Deliver(status) => status
    case Finished(status) => status
  }

  ghost predicate Logged(log: seq<Record>, replies: seq<Event>, run: Run, main: Main)
    requires run.chain != []
  {
    && run.from <= |log|
    && (if main.Lost? then !NoneDrops(log[run.from..]) else Told(log, run.from, StatusSoFar(main)))
    && replies == run.replies +
         (if main.Finished? then [Reply(run.requester, run.chain[0], main.status, run.target)] else [])
  }

  /** The holds at this point: a start takes one when it succeeds. */
  ghost function HoldNow(hold: seq<nat>, run: Run, main: Main): (r: seq<nat>)
    requires run.chain != []
    ensures |r| == |hold|
  {
    if (main.Respond? || main.Deliver? || main.Finished?) && main.status == SUCCESS then
      AddAt(hold, Some(run.chain[0]))
    else
      hold
  }

  /** The clock holding a reference for a child that is about to start. */
  ghost function Ack(run: Run, main: Main): Option<nat> {
    match main
    case Down(k, status) => if status == SUCCESS && k + 1 < |run.chain| then Some(run.chain[k + 1]) else None
    case Lost(_, ack) => ack
    case _ => None
  }

  ghost function Extra(hold: seq<nat>, run: Run, main: Main, stop: Stop): (r: seq<nat>)
    requires run.chain != []
    ensures |r| == |hold|
  {
    AddAt(AddAt(HoldNow(hold, run, main), Ack(run, main)), if stop.Stop? then Some(stop.at) else None)
  }

  /** The invariant between two events of a start, up to the one at which a STOP message sets out. */
  ghost predicate Inv(f: Forest, d: seq<nat>, s: State, hold: seq<nat>, run: Run, main: Main, stop: Stop) {
    && Position(f, d, run, main, stop)
    && QueueShape(s.queue, run, main, stop)
    && Counts(f, s.dev, Extra(hold, run, main, stop))
    && Stages(s.dev, run, WaitCount(main))
    && Ongoing(s.dev, run, Unanswered(main), Unanswered(main) || main.Respond?)
    && Logged(s.log, s.replies, run, main)
  }

  /** Bounds the number of events still to be processed. */
  ghost function Measure(d: seq<nat>, run: Run, main: Main, stop: Stop): int
    requires stop.Stop? ==> stop.at < |d|
  {
    var depth := |run.chain| - 1;
    (if stop.Stop? then d[stop.at] + 1 else 0) +
    match main
    case Climb(k) => 3 * depth - k + 3
    case Down(k, status) => k + 3 + (if status == SUCCESS then depth else 0)
    case StopPending => 2
    case Respond(_) => 2
    case Deliver(_) => 1
    case Finished(_) => 0
    case Lost(_, _) => 0
  }
}
