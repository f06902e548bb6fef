/**
  What the puts of the event core do to the fields of events and to the lists, spelled out: where an event comes from
  and goes to, and which response a handled event leaves.
*/
module FwkPuts {
  import opened FwkStatus
  import opened FwkEvent

  // ------------------------------------------------------------------------------------------------- one put

  /** The fields of an event queued from `e`: a light one leaves the cookie and the parameters of its slot. */
  predicate Carries(x: Event, e: Event, source: Entity, slot: Event, light: bool, counter: nat) {
    && x.id == e.id && x.source == source && x.target == e.target && x.responseRequested == e.responseRequested
    && !x.isDelayed
    && if light then
         !x.isResponse && !x.isNotification && x.cookie == slot.cookie && x.params == slot.params
       else
         && x.isResponse == e.isResponse && x.isNotification == e.isNotification
         && x.cookie == counter && x.params == e.params
  }

  /** One event is at the end of place `q`, and nothing else but the places in `others` has changed. */
  ghost predicate OneMore(st: State, next: State, q: Place, others: set<Place>) {
    && st.at.Keys == next.at.Keys && q in st.at
    && |next.at[q]| == |st.at[q]| + 1 && next.at[q][..|st.at[q]|] == st.at[q]
    && next.current == st.current && next.handled == st.handled && next.entities == st.entities
    && forall p :: p in st.at && p != q && p !in others ==> next.at[p] == st.at[p]
  }

  /** Position `k` of the list is the first with the cookie. */
  predicate FirstWith(events: seq<Event>, cookie: nat, k: nat) {
    k < |events| && events[k].cookie == cookie && forall i :: 0 <= i < k ==> events[i].cookie != cookie
  }

  /** What a put of a standard or light event from `source` makes of a state. */
  ghost predicate Sends(st: State, next: State, e: Event, source: Entity, light: bool, interrupted: bool, status: int,
      cookie: nat)
    requires st.Known()
  {
    var q := if interrupted then Raised else Queue;
    if st.at[Free] == [] then
      status == E_NOMEM && next == st && cookie == e.cookie
    else
      && status == SUCCESS && OneMore(st, next, q, {Free}) && next.at[Free] == st.at[Free][1..]
      && Carries(next.at[q][|st.at[q]|], e, source, st.at[Free][0], light, st.counter)
      && next.counter == (if light then st.counter else (st.counter + 1) % TWO32)
      && cookie == if light then e.cookie else st.counter
  }

  /** What sending a delayed response from `source` makes of a state. */
  ghost predicate SendsDelayed(st: State, next: State, e: Event, source: Entity, interrupted: bool, status: int)
    requires st.Known() && source in st.entities
  {
    var p, q := Delayed(Owner(source)), if interrupted then Raised else Queue;
    if forall i :: 0 <= i < |st.at[p]| ==> st.at[p][i].cookie != e.cookie then
      status == E_PARAM && next == st
    else
      status == SUCCESS && OneMore(st, next, q, {p}) && next.counter == (st.counter + 1) % TWO32 &&
      exists k: nat :: FirstWith(st.at[p], e.cookie, k) && next.at[p] == st.at[p][..k] + st.at[p][k + 1..] &&
        next.at[q][|st.at[q]|] == st.at[p][k].(params := e.params, cookie := st.counter)
  }

  /**
    A put: in a handler the source is the entity that handles an event, and elsewhere that of the event, which must be
    valid then.
  */
  ghost predicate Puts(st: State, next: State, e: Event, light: bool, interrupted: bool, status: int, cookie: nat)
    requires st.Known()
  {
    var source := if !interrupted && st.current.Some? then st.current.value.target else e.source;
    if source !in st.entities then status == E_PARAM && next == st
    else if light || !e.isDelayed then Sends(st, next, e, source, light, interrupted, status, cookie)
    else SendsDelayed(st, next, e, source, interrupted, status)
  }

  /** An event taken out of a place, and another one numbered or not and put into a queue. */
  function Moved(st: State, p: Place, k: nat, x: Event, numbered: bool, interrupted: bool): State
    requires p in st.at && k < |st.at[p]| && Queue in st.at && Raised in st.at
  {
    Enqueue(if numbered then Numbered(Removed(st, p, k)) else Removed(st, p, k), x, interrupted)
  }

  lemma MovedMore(st: State, p: Place, k: nat, x: Event, numbered: bool, interrupted: bool)
    requires p in st.at && k < |st.at[p]| && Queue in st.at && Raised in st.at && (p == Free || p.Delayed?)
    ensures var next, q := Moved(st, p, k, x, numbered, interrupted), if interrupted then Raised else Queue;
      && OneMore(st, next, q, {p}) && next.at[p] == st.at[p][..k] + st.at[p][k + 1..]
      && next.at[q][|st.at[q]|] == x && next.counter == if numbered then (st.counter + 1) % TWO32 else st.counter
  {
  }

  lemma PutEventSends(st: State, e: Event, light: bool, interrupted: bool)
    requires st.Known() && e.source in st.entities && (light || !e.isDelayed)
    ensures var out := PutEvent(st, e, light, interrupted);
      Sends(st, out.st, e, e.source, light, interrupted, out.status, out.cookie)
  {
    if st.at[Free] != [] {
      var x := Duplicate(st.at[Free][0], e, light);
      var sent := if light then x else x.(cookie := st.counter);
      assert PutEvent(st, e, light, interrupted).st == Moved(st, Free, 0, sent, !light, interrupted);
      MovedMore(st, Free, 0, sent, !light, interrupted);
      hide Moved, OneMore;
      assert st.at[Free][..0] + st.at[Free][1..] == st.at[Free][1..];
    }
  }

  lemma PutEventSendsDelayed(st: State, e: Event, interrupted: bool)
    requires st.Known() && e.source in st.entities && e.isDelayed
    ensures var out := PutEvent(st, e, false, interrupted);
      SendsDelayed(st, out.st, e, e.source, interrupted, out.status)
  {
    var p := Delayed(Owner(e.source));
    var k := Find(st.at[p], e.cookie);
    if k < |st.at[p]| {
      var sent := st.at[p][k].(params := e.params, cookie := st.counter);
      assert PutEvent(st, e, false, interrupted).st == Moved(st, p, k, sent, true, interrupted);
      MovedMore(st, p, k, sent, true, interrupted);
      hide Moved, OneMore;
      assert FirstWith(st.at[p], e.cookie, k);
    }
  }

  /** Every put, with its source, its statuses, and every field of the event it queues. */
  lemma PutExact(st: State, e: Event, light: bool, interrupted: bool)
    requires st.Known()
    ensures var out := Put(st, e, light, interrupted);
      Puts(st, out.st, e, light, interrupted, out.status, out.cookie)
  {
    hide PutEvent, OneMore, FirstWith;
    var sent := e.(source := SourceOf(st, e, interrupted));
    if sent.source in st.entities {
      if light || !e.isDelayed {
        PutEventSends(st, sent, light, interrupted);
      } else {
        PutEventSendsDelayed(st, sent, interrupted);
      }
    }
  }

  // --------------------------------------------------------------------------------------------- the response

  /** The response to a request: it goes back to the requester, with the given parameters and cookie. */
  predicate Answers(r: Event, request: Event, params: Params, cookie: nat) {
    && r.source == request.target && r.target == request.source && r.id == request.id
    && r.params == params && r.cookie == cookie && r.isResponse && !r.responseRequested
  }

  /** The state in which the handler of the first event returns. */
  ghost function Returned(st: State, h: Handler): (r: State)
    requires st.Known() && st.at[Queue] != [] && Possible(st.entities, h)
    ensures r.Known() && Extends(Begun(st), r)
  {
    RemovedKnown(st, Queue, 0);
    ActsKnown(Begun(st), h.actions);
    Acts(Begun(st), h.actions)
  }

  /** Whether a slot is free then. */
  ghost predicate SlotLeft(st: State, h: Handler)
    requires st.Known() && st.at[Queue] != [] && Possible(st.entities, h)
  {
    Returned(st, h).at[Free] != []
  }

  lemma InterruptKeepsQueue(st: State, a: Action)
    requires st.Known() && a.interrupted
    ensures Queue in Acted(st, a).at && Acted(st, a).at[Queue] == st.at[Queue]
  {
    hide Put, Carries;
    PutExact(st, a.event, a.light, a.interrupted);
  }

  /** Puts of interrupt handlers leave the event queue alone. */
  lemma {:induction false} LateKeepsQueue(st: State, acts: seq<Action>)
    requires st.Known() && AllPossible(st.entities, acts) && forall i :: 0 <= i < |acts| ==> acts[i].interrupted
    ensures Acts(st, acts).Known() && Acts(st, acts).at[Queue] == st.at[Queue]
    decreases |acts|
  {
    if acts == [] {
    } else {
      var a := acts[0];
      InterruptKeepsQueue(st, a);
      PutKnown(st, a.event, a.light, a.interrupted);
      hide Put;
      LateKeepsQueue(Acted(st, a), acts[1..]);
    }
  }

  /** What becomes of the event queue when its first event is handled. */
  ghost predicate Responds(st: State, next: State, h: Handler)
    requires st.Known() && st.at[Queue] != [] && Possible(st.entities, h) && Queue in next.at
  {
    var request, before, q := st.at[Queue][0], Returned(st, h).at[Queue], next.at[Queue];
    if request.responseRequested && !h.delayed && SlotLeft(st, h) then
      && |q| == |before| + 1 && q[..|before|] == before
      && Answers(q[|before|], request, h.params, Returned(st, h).counter) && !q[|before|].isDelayed
    else
      q == before
  }

  /**
    The response to the event that was handled goes to its requester, at the end of the queue and with the next cookie,
    exactly when it is asked for, not delayed, and a slot is left.
  */
  lemma ResponseQueued(st: State, h: Handler)
    requires st.Known() && st.at[Queue] != [] && Possible(st.entities, h)
    ensures ProcessNext(st, h).Known() && Responds(st, ProcessNext(st, h), h)
  {
    var request, acted := st.at[Queue][0], Returned(st, h);
    RespondedKnown(st, h);
    if request.responseRequested && !h.delayed {
      PutEventSends(acted, Response(request, h), false, false);
    }
    LateKeepsQueue(Responded(st, h), h.late);
    ProcessNextKnown(st, h);
  }
}
