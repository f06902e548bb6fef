/**
  The clock tree state protocol: what one event does to the clocks, their drivers and the event queue.

  Every clock is a small state machine. A request to run climbs to the first running ancestor, replies
  come back down starting one clock each, and STOP messages climb when a reference count reaches zero.
  The functions here are the specification; ClockModule.dfy holds the step-by-step code that meets it.
*/
module ClockTree {
  import opened FwkStatus

  /** Values of `enum mod_clock_state`; a request may carry any 32-bit value. */
  const STOPPED: nat := 0
  const RUNNING: nat := 1

  datatype Stage = Idle | WaitParent

  /** An identifier: one of the clocks, or an entity of another module. */
  datatype Entity = Clock(index: nat) | Other(id: nat)

  /** A response kept back in the delayed-response list of a clock. */
  datatype Delayed = Delayed(cookie: nat, requester: Entity)

  /** The context of one clock. `running` is the state held by its driver. */
  datatype Dev = Dev(
    running: bool,
    refCount: nat,
    stage: Stage,
    caller: Entity,
    initiator: bool,
    ongoing: bool,
    cookie: nat,
    delayed: seq<Delayed>)

  datatype Event =
    | PreRequest(source: Entity, target: Entity, targetState: nat, callerStatus: int)
    | Request(source: Entity, clock: nat, cookie: nat)
    | Response(clock: nat, status: int, state: nat)
    | Reply(requester: Entity, clock: nat, status: int, state: nat)

  /** A driver call. `during` is the target state of the event being processed. */
  datatype Call = GetState(clock: nat, during: nat) | SetState(clock: nat, state: nat)

  datatype Record = Record(call: Call, status: int)

  /** What the drivers answer: the status of the n-th driver call. */
  type Driver = (nat, Call) -> int

  /** The parent of each clock. */
  type Forest = seq<Option<nat>>

  datatype State = State(
    dev: seq<Dev>,
    queue: seq<Event>,
    nextCookie: nat,
    log: seq<Record>,
    replies: seq<Event>)

  predicate WellFormed(f: Forest, s: State) {
    |s.dev| == |f| && forall c :: 0 <= c < |f| && f[c].Some? ==> f[c].value < |f|
  }

  predicate IsSingleNode(f: Forest, c: nat)
    requires c < |f|
  {
    f[c].None? && forall x :: 0 <= x < |f| ==> f[x] != Some(c)
  }

  // ---------- driver and queue ----------

  function Increment(n: nat): (r: nat)
    ensures n + 1 < TWO32 ==> r == n + 1
    ensures n + 1 == TWO32 ==> r == 0
  {
    (n + 1) % TWO32
  }

  function Decrement(n: nat): (r: nat)
    ensures 0 < n <= TWO32 ==> r == n - 1
    ensures n == 0 ==> r == TWO32 - 1
  {
    (n + TWO32 - 1) % TWO32
  }

  function Put(s: State, e: Event): State {
    s.(queue := s.queue + [e], nextCookie := Increment(s.nextCookie))
  }

  function Answer(drv: Driver, s: State, call: Call): int {
    drv(|s.log|, call)
  }

  /** The state after a driver call: the call is logged, and a successful set_state takes effect. */
  function AfterCall(drv: Driver, s: State, call: Call): (r: State)
    requires call.clock < |s.dev|
    ensures |r.dev| == |s.dev|
  {
    var status := Answer(drv, s, call);
    var s1 := s.(log := s.log + [Record(call, status)]);
    if call.SetState? && status == SUCCESS then
      s1.(dev := s.dev[call.clock := s.dev[call.clock].(running := call.state == RUNNING)])
    else
      s1
  }

  function SendSet(s: State, c: nat, to: Entity, targetState: nat, callerStatus: int): State {
    Put(s, PreRequest(Clock(c), to, targetState, callerStatus))
  }

  function SetRef(s: State, c: nat, n: nat): (r: State)
    requires c < |s.dev|
    ensures |r.dev| == |s.dev|
  {
    s.(dev := s.dev[c := s.dev[c].(refCount := n)])
  }

  // ---------- clock_tree_management.c ----------

  function CompleteResponse(s: State, c: nat, targetState: nat, callerStatus: int): (r: State)
    requires c < |s.dev|
    ensures |r.dev| == |s.dev|
  {
    var d := s.dev[c].(stage := Idle);
    if !d.initiator then
      var s1 := s.(dev := s.dev[c := d]);
      if targetState != STOPPED then SendSet(s1, c, d.caller, targetState, callerStatus) else s1
    else
      Put(s.(dev := s.dev[c := d.(initiator := false)]), Response(c, callerStatus, targetState))
  }

  /** The status the transition sub-routine returns for a driver status. */
  function TransitionStatus(status: int): int {
    if status == PENDING then E_SUPPORT else status
  }

  /** A RUNNING request at an idle clock. */
  function IdleStart(f: Forest, drv: Driver, s: State, c: nat, callerStatus: int): (r: State)
    requires WellFormed(f, s) && c < |f|
    ensures |r.dev| == |s.dev|
  {
    if s.dev[c].running then
      CompleteResponse(SetRef(s, c, Increment(s.dev[c].refCount)), c, RUNNING, callerStatus)
    else if f[c].None? then
      var status := TransitionStatus(Answer(drv, s, SetState(c, RUNNING)));
      var s1 := AfterCall(drv, s, SetState(c, RUNNING));
      if status == E_SUPPORT then
        s1
      else if status == SUCCESS then
        CompleteResponse(SetRef(s1, c, Increment(s1.dev[c].refCount)), c, RUNNING, status)
      else
        CompleteResponse(s1, c, RUNNING, status)
    else
      SendSet(s.(dev := s.dev[c := s.dev[c].(stage := WaitParent)]), c, Clock(f[c].value), RUNNING, callerStatus)
  }

  /** A STOPPED request at an idle clock. */
  function IdleStop(f: Forest, drv: Driver, s: State, c: nat, callerStatus: int): (r: State)
    requires WellFormed(f, s) && c < |f|
    ensures |r.dev| == |s.dev|
  {
    var s1 := SetRef(s, c, Decrement(s.dev[c].refCount));
    if s1.dev[c].refCount == 0 then
      var status := TransitionStatus(Answer(drv, s1, SetState(c, STOPPED)));
      var s2 := AfterCall(drv, s1, SetState(c, STOPPED));
      if status == E_SUPPORT then
        s2
      else
        var s3 := CompleteResponse(s2, c, STOPPED, status);
        if f[c].Some? then SendSet(s3, c, Clock(f[c].value), STOPPED, status) else s3
    else
      CompleteResponse(s1, c, STOPPED, callerStatus)
  }

  /** A clock waiting for its parent receives the reply of the parent. */
  function ParentReply(f: Forest, drv: Driver, s: State, c: nat, targetState: nat, callerStatus: int): (r: State)
    requires WellFormed(f, s) && c < |f| && f[c].Some?
    ensures |r.dev| == |s.dev|
  {
    if callerStatus == SUCCESS then
      var status := TransitionStatus(Answer(drv, s, SetState(c, targetState)));
      var s1 := AfterCall(drv, s, SetState(c, targetState));
      if status == E_SUPPORT then
        s1
      else if status == SUCCESS then
        CompleteResponse(SetRef(s1, c, Increment(s1.dev[c].refCount)), c, targetState, status)
      else
        CompleteResponse(SendSet(s1, c, Clock(f[c].value), STOPPED, status), c, RUNNING, status)
    else
      CompleteResponse(s, c, targetState, callerStatus)
  }

  /** One pre-request event at clock `c`. */
  function ProcessState(f: Forest, drv: Driver, s: State, source: Entity, c: nat, targetState: nat, callerStatus: int):
      (r: State)
    requires WellFormed(f, s) && c < |f|
    ensures |r.dev| == |s.dev|
  {
    if s.dev[c].stage.Idle? then
      var s0 := s.(dev := s.dev[c := s.dev[c].(caller := source)]);
      var status := Answer(drv, s0, GetState(c, targetState));
      var s1 := AfterCall(drv, s0, GetState(c, targetState));
      if status == PENDING then s1
      else if status != SUCCESS then CompleteResponse(s1, c, targetState, status)
      else if targetState == RUNNING then IdleStart(f, drv, s1, c, callerStatus)
      else if targetState == STOPPED then IdleStop(f, drv, s1, c, callerStatus)
      else s1
    else if f[c].None? || source != Clock(f[c].value) then
      SendSet(s, c, source, targetState, E_BUSY)
    else
      ParentReply(f, drv, s, c, targetState, callerStatus)
  }

  // ---------- mod_clock.c ----------

  /** The request event: remember its cookie and keep its response back. */
  function ProcessRequest(s: State, source: Entity, c: nat, cookie: nat): (r: State)
    requires c < |s.dev|
    ensures |r.dev| == |s.dev|
  {
    var d := s.dev[c];
    s.(dev := s.dev[c := d.(cookie := cookie, delayed := d.delayed + [Delayed(cookie, source)])])
  }

  /** Position of the first delayed response with the given cookie, or the length of the list. */
  function FindDelayed(l: seq<Delayed>, cookie: nat): (i: nat)
    ensures i <= |l|
    ensures i < |l| ==> l[i].cookie == cookie
    ensures forall j :: 0 <= j < i ==> l[j].cookie != cookie
  {
    if l == [] then 0
    else if l[0].cookie == cookie then 0
    else 1 + FindDelayed(l[1..], cookie)
  }

  /** The end of a request: the response kept back is sent to the requester. */
  function ProcessResponse(s: State, c: nat, status: int, state: nat): (r: State)
    requires c < |s.dev|
    ensures |r.dev| == |s.dev|
  {
    var d := s.dev[c];
    var i := FindDelayed(d.delayed, d.cookie);
    if i == |d.delayed| then s
    else
      var s1 := s.(dev := s.dev[c := d.(ongoing := false, delayed := d.delayed[..i] + d.delayed[i + 1..])]);
      Put(s1, Reply(d.delayed[i].requester, c, status, state))
  }

  /** Takes the event at the head of the queue and processes it. */
  function Step(f: Forest, drv: Driver, s: State): (r: State)
    requires WellFormed(f, s) && s.queue != []
    ensures WellFormed(f, r)
  {
    var s0 := s.(queue := s.queue[1..]);
    match s.queue[0]
    case PreRequest(source, Clock(c), targetState, callerStatus) =>
      if c < |f| then ProcessState(f, drv, s0, source, c, targetState, callerStatus) else s0
    case PreRequest(_, Other(_), _, _) => s0
    case Request(source, c, cookie) => if c < |f| then ProcessRequest(s0, source, c, cookie) else s0
    case Response(c, status, state) => if c < |f| then ProcessResponse(s0, c, status, state) else s0
    case Reply(_, _, _, _) => s0.(replies := s.replies + [s.queue[0]])
  }

  /** Repeats `step` until the queue is empty, at most `n` times. */
  function Iterate(step: State -> State, s: State, n: nat): State
    decreases n
  {
    if n == 0 || s.queue == [] then s else Iterate(step, step(s), n - 1)
  }

  function Stepper(f: Forest, drv: Driver): State -> State {
    s => if WellFormed(f, s) && s.queue != [] then Step(f, drv, s) else s
  }

  /** Processes events until the queue is empty, at most `n` of them. */
  function Drain(f: Forest, drv: Driver, s: State, n: nat): State {
    Iterate(Stepper(f, drv), s, n)
  }

  /** Queues the request event whose response will be kept back. */
  function CreateAsyncRequest(s: State, requester: Entity, c: nat): (r: State)
    requires c < |s.dev|
    ensures |r.dev| == |s.dev|
  {
    var s1 := Put(s, Request(requester, c, s.nextCookie));
    s1.(dev := s.dev[c := s.dev[c].(ongoing := true)])
  }

  /** `clock_set_state`, called while an event of `requester` is processed. */
  function SetStateCall(f: Forest, drv: Driver, s: State, requester: Entity, c: nat, state: nat): (r: (State, int))
    requires WellFormed(f, s) && c < |f|
    ensures WellFormed(f, r.0)
  {
    if s.dev[c].ongoing || !s.dev[c].stage.Idle? then
      (s, E_BUSY)
    else if IsSingleNode(f, c) then
      var status := Answer(drv, s, SetState(c, state));
      var s1 := AfterCall(drv, s, SetState(c, state));
      if status == PENDING then (CreateAsyncRequest(s1, requester, c), PENDING) else (s1, status)
    else
      var s1 := CreateAsyncRequest(s, requester, c);
      var s2 := s1.(dev := s1.dev[c := s1.dev[c].(initiator := true)]);
      (Put(s2, PreRequest(requester, Clock(c), state, SUCCESS)), PENDING)
  }
}
