/**
  The event core of the framework as a state machine (framework/src/fwk_core.c, framework/src/fwk_delayed_resp.c).
  Every slot of the fixed event table holds an event and is in one place: the free list, the event queue, the queue of
  events raised by interrupt handlers, the delayed responses of one module or element, or current (being processed).
*/
module FwkEvent {
  import opened FwkStatus

  /** Identifiers of modules, elements and sub-elements. */
  datatype Entity = NoEntity | Module(mod: nat) | Element(mod: nat, elt: nat) | SubElement(mod: nat, elt: nat, sub: nat)

  /** The context of an entity: a sub-element uses the context of its element. */
  function Owner(e: Entity): (r: Entity)
    ensures !r.SubElement? && (e.SubElement? ==> r.Element? && r.mod == e.mod && r.elt == e.elt)
  {
    if e.SubElement? then Element(e.mod, e.elt) else e
  }

  /** Event parameters, which the framework only copies. */
  type Params = seq<int>

  datatype Event = Event(
    id: nat,
    source: Entity,
    target: Entity,
    cookie: nat,
    isResponse: bool,
    responseRequested: bool,
    isNotification: bool,
    isDelayed: bool,
    params: Params
  )

  datatype Place = Free | Queue | Raised | Delayed(owner: Entity)

  /** An event that entered the event queue: whether an interrupt raised it, and how many were handled before. */
  datatype Entry = Entry(event: Event, raised: bool, handled: nat)

  /**
    `entities` are the valid identifiers. The last four components are history: the number of cookies given out, the
    events handled so far, everything that entered the event queue, and everything raised by interrupts, in order.
  */
  datatype State = State(
    entities: set<Entity>,
    at: map<Place, seq<Event>>,
    current: Option<Event>,
    counter: nat,
    puts: nat,
    handled: seq<Event>,
    entered: seq<Entry>,
    raised: seq<Event>
  ) {
    /** Every entity has its list of delayed responses, and queued events name valid entities. */
    ghost predicate Known() {
      && Free in at && Queue in at && Raised in at
      && (forall e :: e in entities ==> Delayed(Owner(e)) in at)
      && (forall p, i :: p in at && p != Free && 0 <= i < |at[p]| ==>
            at[p][i].source in entities && at[p][i].target in entities)
      && (current.Some? ==> current.value.source in entities && current.value.target in entities)
    }
  }

  function Places(entities: set<Entity>): set<Place> {
    {Free, Queue, Raised} + set e | e in entities :: Delayed(Owner(e))
  }

  const ZERO: Event := Event(0, NoEntity, NoEntity, 0, false, false, false, false, [])

  /** The state with no slots. */
  ghost function Empty(entities: set<Entity>): State {
    State(entities, map p | p in Places(entities) :: [], None, 0, 0, [], [], [])
  }

  /** Position of the first event with the given cookie, or the length. */
  function Find(events: seq<Event>, cookie: nat): (k: nat)
    ensures k <= |events|
    ensures k < |events| ==> events[k].cookie == cookie
    ensures forall i :: 0 <= i < k ==> events[i].cookie != cookie
  {
    if events == [] || events[0].cookie == cookie then 0 else 1 + Find(events[1..], cookie)
  }

  /** Takes the event at position `k` of a place out of it. */
  function Removed(st: State, p: Place, k: nat): State
    requires p in st.at && k < |st.at[p]|
  {
    st.(at := st.at[p := st.at[p][..k] + st.at[p][k + 1..]])
  }

  function Added(st: State, p: Place, e: Event): State
    requires p in st.at
  {
    st.(at := st.at[p := st.at[p] + [e]])
  }

  /** The state before any event: all slots free and zeroed. */
  ghost function Initial(entities: set<Entity>, slots: nat): (st: State)
    ensures Free in st.at
  {
    if slots == 0 then Empty(entities) else Added(Initial(entities, slots - 1), Free, ZERO)
  }

  /** Enters a queue: the event queue, or in interrupt context the queue of raised events. */
  function Enqueue(st: State, e: Event, interrupted: bool): State
    requires Queue in st.at && Raised in st.at
  {
    if interrupted then
      Added(st, Raised, e).(raised := st.raised + [e])
    else
      Added(st, Queue, e).(entered := st.entered + [Entry(e, false, |st.handled|)])
  }

  function Numbered(st: State): State {
    st.(counter := (st.counter + 1) % TWO32, puts := st.puts + 1)
  }

  /** The event as duplicated into a slot: a light event leaves the slot's old cookie and parameters in place. */
  function Duplicate(slot: Event, e: Event, light: bool): Event {
    if light then
      slot.(id := e.id, source := e.source, target := e.target, isNotification := false,
            responseRequested := e.responseRequested, isDelayed := false, isResponse := false)
    else
      e
  }

  /** A new state, the status returned, and the cookie left in the caller's event. */
  datatype Outcome = Outcome(st: State, status: int, cookie: nat)

  /** `put_event`. */
  function PutEvent(st: State, e: Event, light: bool, interrupted: bool): Outcome
    requires Free in st.at && Queue in st.at && Raised in st.at && Delayed(Owner(e.source)) in st.at
  {
    if !light && e.isDelayed then
      var p := Delayed(Owner(e.source));
      var k := Find(st.at[p], e.cookie);
      if k == |st.at[p]| then
        Outcome(st, E_PARAM, e.cookie)
      else
        var sent := st.at[p][k].(params := e.params, cookie := st.counter);
        Outcome(Enqueue(Numbered(Removed(st, p, k)), sent, interrupted), SUCCESS, st.counter)
    else if st.at[Free] == [] then
      Outcome(st, E_NOMEM, e.cookie)
    else
      var sent := Duplicate(st.at[Free][0], e, light);
      var rest := Removed(st, Free, 0);
      if light then
        Outcome(Enqueue(rest, sent, interrupted), SUCCESS, e.cookie)
      else
        Outcome(Enqueue(Numbered(rest), sent.(cookie := st.counter), interrupted), SUCCESS, st.counter)
  }

  /** The source of an event put by a module: inside a handler it is the entity that is handling an event. */
  function SourceOf(st: State, e: Event, interrupted: bool): Entity {
    if !interrupted && st.current.Some? then st.current.value.target else e.source
  }

  /** `__fwk_put_event` and `__fwk_put_event_light`. */
  function Put(st: State, e: Event, light: bool, interrupted: bool): Outcome
    requires st.Known()
  {
    var source := SourceOf(st, e, interrupted);
    if source !in st.entities then
      Outcome(st, E_PARAM, e.cookie)
    else
      PutEvent(st, e.(source := source), light, interrupted)
  }

  /** What happens while a handler runs: it puts an event, or an interrupt handler preempts it and puts one. */
  datatype Action = Action(event: Event, light: bool, interrupted: bool)

  /**
    The run of one event handler: its actions, whether it delays its response, the response parameters, and the events
    that interrupts put between its response and the release of the event.
  */
  datatype Handler = Handler(actions: seq<Action>, delayed: bool, params: Params, late: seq<Action>)

  /** All actions name valid targets. */
  ghost predicate AllPossible(entities: set<Entity>, acts: seq<Action>)
    decreases |acts|
  {
    acts == [] || (acts[0].event.target in entities && AllPossible(entities, acts[1..]))
  }

  ghost predicate Possible(entities: set<Entity>, h: Handler) {
    && AllPossible(entities, h.actions) && AllPossible(entities, h.late)
    && (forall i :: 0 <= i < |h.late| ==> h.late[i].interrupted)
  }

  /** The response to an event, as prepared by the framework and completed by the handler. */
  function Response(e: Event, h: Handler): Event {
    e.(source := e.target, target := e.source, isDelayed := h.delayed, params := h.params,
       isResponse := true, responseRequested := false)
  }

  /** Everything that only puts make of a state: no event starts or ends, and the entities stay. */
  ghost predicate Extends(st: State, next: State) {
    && next.entities == st.entities && next.at.Keys == st.at.Keys
    && next.current == st.current && next.handled == st.handled
  }

  lemma PutKnown(st: State, e: Event, light: bool, interrupted: bool)
    requires st.Known() && e.target in st.entities
    ensures var next := Put(st, e, light, interrupted).st; next.Known() && Extends(st, next)
  {
    var e := e.(source := SourceOf(st, e, interrupted));
    if e.source in st.entities {
      PutEventKnown(st, e, light, interrupted);
    }
  }

  lemma PutEventKnown(st: State, e: Event, light: bool, interrupted: bool)
    requires st.Known() && e.source in st.entities && e.target in st.entities
    ensures var next := PutEvent(st, e, light, interrupted).st; next.Known() && Extends(st, next)
  {
    var p := if !light && e.isDelayed then Delayed(Owner(e.source)) else Free;
    var k := if !light && e.isDelayed then Find(st.at[p], e.cookie) else 0;
    if k < |st.at[p]| {
      RemovedKnown(st, p, k);
      var sent := if p == Free then Duplicate(st.at[Free][0], e, light) else st.at[p][k];
      AddedKnown(Removed(st, p, k), if interrupted then Raised else Queue,
        if light then sent else sent.(params := e.params, cookie := st.counter));
    }
  }

  lemma RemovedKnown(st: State, p: Place, k: nat)
    requires st.Known() && p in st.at && k < |st.at[p]|
    ensures Removed(st, p, k).Known()
  {
  }

  lemma AddedKnown(st: State, p: Place, e: Event)
    requires st.Known() && p in st.at && (p != Free ==> e.source in st.entities && e.target in st.entities)
    ensures Added(st, p, e).Known()
  {
  }

  /** The state after one action of a handler or an interrupt. */
  function Acted(st: State, a: Action): State
    requires st.Known()
  {
    Put(st, a.event, a.light, a.interrupted).st
  }

  ghost function Acts(st: State, acts: seq<Action>): State
    requires st.Known() && AllPossible(st.entities, acts)
    decreases |acts|
  {
    if acts == [] then
      st
    else
      PutKnown(st, acts[0].event, acts[0].light, acts[0].interrupted);
      Acts(Acted(st, acts[0]), acts[1..])
  }

  lemma {:induction false} ActsKnown(st: State, acts: seq<Action>)
    requires st.Known() && AllPossible(st.entities, acts)
    ensures Acts(st, acts).Known() && Extends(st, Acts(st, acts))
    decreases |acts|
  {
    if acts == [] {
    } else {
      PutKnown(st, acts[0].event, acts[0].light, acts[0].interrupted);
      ActsKnown(Acted(st, acts[0]), acts[1..]);
    }
  }

  /** The first event leaves the queue and becomes current. */
  function Begun(st: State): State
    requires Queue in st.at && st.at[Queue] != []
  {
    var e := st.at[Queue][0];
    Removed(st, Queue, 0).(current := Some(e), handled := st.handled + [e])
  }

  /** The response is put at once, or stored with the delayed responses of its source if a slot is free. */
  function Answered(st: State, r: Event): State
    requires st.Known() && r.source in st.entities
  {
    if !r.isDelayed then
      PutEvent(st, r, false, false).st
    else if st.at[Free] == [] then
      st
    else
      Added(Removed(st, Free, 0), Delayed(Owner(r.source)), r)
  }

  lemma AnsweredKnown(st: State, r: Event)
    requires st.Known() && r.source in st.entities && r.target in st.entities
    ensures Answered(st, r).Known() && Extends(st, Answered(st, r))
  {
    if !r.isDelayed {
      PutEventKnown(st, r, false, false);
    } else if st.at[Free] != [] {
      RemovedKnown(st, Free, 0);
      AddedKnown(Removed(st, Free, 0), Delayed(Owner(r.source)), r);
    }
  }

  /** The current event goes back to the free list. */
  function Released(st: State): State
    requires Free in st.at && st.current.Some?
  {
    Added(st, Free, st.current.value).(current := None)
  }

  /** The state in which the handler of the first event has returned and its response has been dealt with. */
  ghost function Responded(st: State, h: Handler): State
    requires st.Known() && st.at[Queue] != [] && Possible(st.entities, h)
  {
    var e := st.at[Queue][0];
    RemovedKnown(st, Queue, 0);
    var acted := Acts(Begun(st), h.actions);
    ActsKnown(Begun(st), h.actions);
    if e.responseRequested then Answered(acted, Response(e, h)) else acted
  }

  lemma RespondedKnown(st: State, h: Handler)
    requires st.Known() && st.at[Queue] != [] && Possible(st.entities, h)
    ensures Responded(st, h).Known() && Extends(Begun(st), Responded(st, h))
  {
    var e := st.at[Queue][0];
    RemovedKnown(st, Queue, 0);
    ActsKnown(Begun(st), h.actions);
    if e.responseRequested {
      AnsweredKnown(Acts(Begun(st), h.actions), Response(e, h));
    }
  }

  /** `process_next_event`. */
  ghost function ProcessNext(st: State, h: Handler): State
    requires st.Known() && st.at[Queue] != [] && Possible(st.entities, h)
  {
    RespondedKnown(st, h);
    ActsKnown(Responded(st, h), h.late);
    Released(Acts(Responded(st, h), h.late))
  }

  lemma ProcessNextKnown(st: State, h: Handler)
    requires st.Known() && st.at[Queue] != [] && Possible(st.entities, h)
    ensures var next := ProcessNext(st, h);
      && next.Known() && next.current == None && next.handled == st.handled + [st.at[Queue][0]]
      && next.entities == st.entities && next.at.Keys == st.at.Keys
  {
    RespondedKnown(st, h);
    ActsKnown(Responded(st, h), h.late);
    var st' := Acts(Responded(st, h), h.late);
    AddedKnown(st', Free, st'.current.value);
  }

  /** `process_isr` with a raised event: the event moves to the event queue. */
  function Transferred(st: State): State
    requires Raised in st.at && Queue in st.at && st.at[Raised] != []
  {
    var e := st.at[Raised][0];
    Added(Removed(st, Raised, 0), Queue, e).(entered := st.entered + [Entry(e, true, |st.handled|)])
  }

  lemma TransferredKnown(st: State)
    requires st.Known() && st.at[Raised] != []
    ensures var next := Transferred(st); next.Known() && Extends(st, next)
  {
    RemovedKnown(st, Raised, 0);
    AddedKnown(Removed(st, Raised, 0), Queue, st.at[Raised][0]);
  }

  /**
    What happens to the framework: outside a handler a module or an interrupt puts an event, the next event is
    processed, or a raised event is transferred, which the main loop does only with an empty event queue.
  */
  datatype Step = Outside(action: Action) | Process(handler: Handler) | Transfer

  ghost predicate Enabled(st: State, s: Step)
    requires st.Known()
  {
    match s
    case Outside(a) => a.event.target in st.entities
    case Process(h) => st.at[Queue] != [] && Possible(st.entities, h)
    case Transfer => st.at[Queue] == [] && st.at[Raised] != []
  }

  ghost function Next(st: State, s: Step): State
    requires st.Known() && Enabled(st, s)
  {
    match s
    case Outside(a) => Acted(st, a)
    case Process(h) => ProcessNext(st, h)
    case Transfer => Transferred(st)
  }

  /** Whether `steps` lead from `st`, between two events, to `end`. */
  ghost predicate Reaches(st: State, steps: seq<Step>, end: State)
    decreases |steps|
  {
    if steps == [] then
      st == end
    else
      st.Known() && Enabled(st, steps[0]) && Reaches(Next(st, steps[0]), steps[1..], end)
  }

  lemma NextKnown(st: State, s: Step)
    requires st.Known() && st.current == None && Enabled(st, s)
    ensures var next := Next(st, s);
      next.Known() && next.current == None && next.entities == st.entities && next.at.Keys == st.at.Keys
  {
    match s
    case Outside(a) => PutKnown(st, a.event, a.light, a.interrupted);
    case Process(h) => ProcessNextKnown(st, h);
    case Transfer => TransferredKnown(st);
  }

  lemma {:induction false} ReachesNext(st: State, steps: seq<Step>, mid: State, s: Step)
    requires Reaches(st, steps, mid) && mid.Known() && Enabled(mid, s)
    ensures Reaches(st, steps + [s], Next(mid, s))
    decreases |steps|
  {
    assert (steps + [s])[1..] == if steps == [] then [] else steps[1..] + [s];
    if steps == [] {
    } else {
      ReachesNext(Next(st, steps[0]), steps[1..], mid, s);
    }
  }

  /** The handlers that ran in a run, in order. */
  ghost function Ran(steps: seq<Step>): seq<Handler> {
    if steps == [] then
      []
    else
      var last := steps[|steps| - 1];
      Ran(steps[..|steps| - 1]) + if last.Process? then [last.handler] else []
  }

  /** `Find` is the only position with its properties. */
  lemma FindIs(events: seq<Event>, cookie: nat, k: nat)
    requires k <= |events| && (k < |events| ==> events[k].cookie == cookie)
    requires forall i :: 0 <= i < k ==> events[i].cookie != cookie
    ensures Find(events, cookie) == k
  {
  }

  lemma {:induction false} InitialKnown(entities: set<Entity>, slots: nat)
    ensures var st := Initial(entities, slots);
      && st == Empty(entities).(at := st.at) && st.at.Keys == Places(entities) && st.Known()
      && |st.at[Free]| == slots && (forall i :: 0 <= i < slots ==> st.at[Free][i] == ZERO)
      && (forall p :: p in st.at && p != Free ==> st.at[p] == [])
  {
    if slots == 0 {
      forall e | e in entities
        ensures Delayed(Owner(e)) in Places(entities)
      {
      }
    } else {
      InitialKnown(entities, slots - 1);
    }
  }
}
