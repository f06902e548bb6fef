/** Delayed responses over every run of the event core, and where two of them are mistaken for each other. */
module FwkDelayedTheorems {
  import opened FwkStatus
  import opened FwkEvent
  import opened FwkPuts
  import opened FwkEventTheorems
  import opened FwkCookies

  /**
    With distinct cookies, sending a delayed response sends the one stored for its own request, leaves no tracked event
    with that cookie, and a second sending is refused.
  */
  lemma SendsOwnResponse(st: State, e: Event, interrupted: bool, k: nat)
    requires st.Known() && Distinct(st.at) && Responses(st.at) && e.isDelayed && e.source in st.entities
    requires k < |st.at[Delayed(Owner(e.source))]| && st.at[Delayed(Owner(e.source))][k].cookie == e.cookie
    ensures var p, q := Delayed(Owner(e.source)), if interrupted then Raised else Queue;
      var out := PutEvent(st, e, false, interrupted);
      && out.status == SUCCESS
      && out.st.at == Removed(st, p, k).at[q := st.at[q] + [st.at[p][k].(params := e.params, cookie := out.cookie)]]
      && Absent(out.st.at, e.cookie)
      && PutEvent(out.st, e, false, interrupted) == Outcome(out.st, E_PARAM, e.cookie)
  {
    var p, q := Delayed(Owner(e.source)), if interrupted then Raised else Queue;
    var f := Find(st.at[p], e.cookie);
    assert !Clash(st.at, p, f, p, k);
    assert Live(st.at, p, k);
    RemovedCookie(st, p, k);
    var next := PutEvent(st, e, false, interrupted).st;
    AddedAbsent(Removed(st, p, k), q, st.at[p][k].(params := e.params, cookie := st.counter), e.cookie);
    assert Absent(next.at, e.cookie);
    var f' := Find(next.at[p], e.cookie);
    assert f' < |next.at[p]| ==> Live(next.at, p, f');
  }

  /** The response `r` waits with the delayed responses of `o`. */
  ghost predicate Stored(st: State, o: Entity, r: Event) {
    Delayed(o) in st.at && r in st.at[Delayed(o)]
  }

  /** The action does not send a delayed response with the cookie `c`. */
  predicate Spares(a: Action, c: nat) {
    !a.light && a.event.isDelayed ==> a.event.cookie != c
  }

  ghost predicate AllSpare(acts: seq<Action>, c: nat)
    decreases |acts|
  {
    acts == [] || (Spares(acts[0], c) && AllSpare(acts[1..], c))
  }

  ghost predicate StepSpares(s: Step, c: nat) {
    match s
    case Outside(a) => Spares(a, c)
    case Process(h) => AllSpare(h.actions, c) && AllSpare(h.late, c)
    case Transfer => true
  }

  ghost predicate RunSpares(steps: seq<Step>, c: nat)
    decreases |steps|
  {
    steps == [] || (StepSpares(steps[0], c) && RunSpares(steps[1..], c))
  }

  lemma RemovedStores(st: State, p: Place, k: nat, o: Entity, r: Event)
    requires p in st.at && k < |st.at[p]| && Stored(st, o, r) && (p == Delayed(o) ==> st.at[p][k] != r)
    ensures Stored(Removed(st, p, k), o, r)
  {
    if p == Delayed(o) {
      assert st.at[p] == st.at[p][..k] + [st.at[p][k]] + st.at[p][k + 1..];
    }
  }

  lemma PutEventStores(st: State, e: Event, light: bool, interrupted: bool, o: Entity, r: Event)
    requires st.Known() && e.source in st.entities && Stored(st, o, r)
    requires !light && e.isDelayed ==> e.cookie != r.cookie
    ensures Stored(PutEvent(st, e, light, interrupted).st, o, r)
  {
    var p := if !light && e.isDelayed then Delayed(Owner(e.source)) else Free;
    var k := if !light && e.isDelayed then Find(st.at[p], e.cookie) else 0;
    if k < |st.at[p]| {
      RemovedStores(st, p, k, o, r);
    }
  }

  lemma ActedStores(st: State, a: Action, o: Entity, r: Event)
    requires st.Known() && Stored(st, o, r) && Spares(a, r.cookie)
    ensures Stored(Acted(st, a), o, r)
  {
    var e := a.event.(source := SourceOf(st, a.event, a.interrupted));
    if e.source in st.entities {
      PutEventStores(st, e, a.light, a.interrupted, o, r);
    }
  }

  lemma {:induction false} ActsStore(st: State, acts: seq<Action>, o: Entity, r: Event)
    requires st.Known() && AllPossible(st.entities, acts) && Stored(st, o, r) && AllSpare(acts, r.cookie)
    ensures Stored(Acts(st, acts), o, r)
    decreases |acts|
  {
    if acts == [] {
    } else {
      PutKnown(st, acts[0].event, acts[0].light, acts[0].interrupted);
      ActedStores(st, acts[0], o, r);
      ActsStore(Acted(st, acts[0]), acts[1..], o, r);
    }
  }

  lemma NextStores(st: State, s: Step, o: Entity, r: Event)
    requires Good(st) && Enabled(st, s) && Stored(st, o, r) && StepSpares(s, r.cookie)
    ensures Stored(Next(st, s), o, r)
  {
    match s
    case Outside(a) => ActedStores(st, a, o, r);
    case Process(h) => ProcessStores(st, h, o, r);
    case Transfer => RemovedStores(st, Raised, 0, o, r);
  }

  lemma RespondedStores(st: State, h: Handler, o: Entity, r: Event)
    requires st.Known() && st.at[Queue] != [] && Possible(st.entities, h) && Stored(st, o, r)
    requires AllSpare(h.actions, r.cookie)
    ensures Stored(Responded(st, h), o, r)
  {
    RemovedKnown(st, Queue, 0);
    RemovedStores(st, Queue, 0, o, r);
    ActsKnown(Begun(st), h.actions);
    ActsStore(Begun(st), h.actions, o, r);
    if st.at[Queue][0].responseRequested && !h.delayed {
      PutEventStores(Acts(Begun(st), h.actions), Response(st.at[Queue][0], h), false, false, o, r);
    }
  }

  lemma ProcessStores(st: State, h: Handler, o: Entity, r: Event)
    requires st.Known() && st.at[Queue] != [] && Possible(st.entities, h) && Stored(st, o, r)
    requires AllSpare(h.actions, r.cookie) && AllSpare(h.late, r.cookie)
    ensures Stored(ProcessNext(st, h), o, r)
  {
    RespondedStores(st, h, o, r);
    RespondedKnown(st, h);
    ActsStore(Responded(st, h), h.late, o, r);
  }

  /** A stored response stays stored over every run in which nobody sends its cookie. */
  lemma {:induction false} RunStores(st: State, steps: seq<Step>, end: State, o: Entity, r: Event)
    requires Good(st) && Reaches(st, steps, end) && Stored(st, o, r) && RunSpares(steps, r.cookie)
    ensures Stored(end, o, r)
    decreases |steps|
  {
    if steps == [] {
    } else {
      NextGood(st, steps[0]);
      NextStores(st, steps[0], o, r);
      RunStores(Next(st, steps[0]), steps[1..], end, o, r);
    }
  }

  /** A response to the request is among the delayed responses of its target, with the cookie of the request. */
  ghost predicate StoresAnswer(st: State, request: Event, params: Params) {
    var p := Delayed(Owner(request.target));
    p in st.at && exists r :: r in st.at[p] && r.isDelayed && Answers(r, request, params, request.cookie)
  }

  /** A handler that delays its response leaves it stored, if a slot is free when it returns. */
  lemma DelayStores(st: State, h: Handler)
    requires st.Known() && st.at[Queue] != [] && Possible(st.entities, h) && SlotLeft(st, h)
    requires st.at[Queue][0].responseRequested && h.delayed && AllSpare(h.late, st.at[Queue][0].cookie)
    ensures Stored(ProcessNext(st, h), Owner(st.at[Queue][0].target), Response(st.at[Queue][0], h))
    ensures StoresAnswer(ProcessNext(st, h), st.at[Queue][0], h.params)
  {
    var r := Response(st.at[Queue][0], h);
    RespondedKnown(st, h);
    ActsKnown(Begun(st), h.actions);
    assert Stored(Responded(st, h), Owner(r.source), r);
    ActsStore(Responded(st, h), h.late, Owner(r.source), r);
  }

  /** Without a free slot nothing is stored, and the cookie of the request is gone. */
  lemma DelayLoses(st: State, h: Handler)
    requires st.Known() && Unique(st) && st.at[Queue] != [] && Possible(st.entities, h) && !SlotLeft(st, h)
    requires st.at[Queue][0].responseRequested && h.delayed && TameStep(Process(h)) && ProcessNext(st, h).puts <= TWO32
    ensures Absent(ProcessNext(st, h).at, st.at[Queue][0].cookie)
  {
    var e := st.at[Queue][0];
    RespondedKnown(st, h);
    RemovedKnown(st, Queue, 0);
    ActsKnown(Begun(st), h.actions);
    var acted := Acts(Begun(st), h.actions);
    assert Responded(st, h) == acted;
    ActsKnown(acted, h.late);
    ActsCount(acted, h.late);
    BegunUnique(st);
    ActsUnique(Begun(st), h.actions);
    ActsUnique(acted, h.late);
    AddedAbsent(Acts(acted, h.late), Free, e, e.cookie);
  }

  /** A handler that delays its response leaves it stored exactly when a slot is free when it returns. */
  lemma DelayStoresExactly(st: State, h: Handler)
    requires st.Known() && Unique(st) && st.at[Queue] != [] && Possible(st.entities, h)
    requires st.at[Queue][0].responseRequested && h.delayed && AllSpare(h.late, st.at[Queue][0].cookie)
    requires TameStep(Process(h)) && ProcessNext(st, h).puts <= TWO32
    ensures Stored(ProcessNext(st, h), Owner(st.at[Queue][0].target), Response(st.at[Queue][0], h)) <==> SlotLeft(st, h)
  {
    if SlotLeft(st, h) {
      DelayStores(st, h);
    } else {
      DelayLoses(st, h);
    }
  }

  /** What lies between a delayed response and its sending: nobody else sends it, and cookies stay unique. */
  ghost predicate Undisturbed(st: State, h: Handler, steps: seq<Step>, end: State, cookie: nat)
    requires st.Known() && st.at[Queue] != [] && Possible(st.entities, h)
  {
    && TameStep(Process(h)) && AllSpare(h.late, cookie)
    && Reaches(ProcessNext(st, h), steps, end) && TameRun(steps) && RunSpares(steps, cookie) && end.puts <= TWO32
  }

  lemma DelayedStays(st: State, h: Handler, steps: seq<Step>, end: State) returns (k: nat)
    requires Good(st) && Unique(st) && Enabled(st, Process(h)) && SlotLeft(st, h)
    requires st.at[Queue][0].responseRequested && h.delayed && Undisturbed(st, h, steps, end, st.at[Queue][0].cookie)
    ensures Good(end) && end.entities == st.entities && Unique(end)
    ensures var o := Owner(st.at[Queue][0].target);
      Delayed(o) in end.at && k < |end.at[Delayed(o)]| && end.at[Delayed(o)][k] == Response(st.at[Queue][0], h)
  {
    hide Reaches, RunSpares, TameRun, AllSpare, Answers, StoresAnswer;
    var request := st.at[Queue][0];
    var next := Next(st, Process(h));
    NextGood(st, Process(h));
    RunCounts(next, steps, end);
    NextUnique(st, Process(h));
    DelayStores(st, h);
    RunOrdered(next, steps, end);
    RunUnique(next, steps, end);
    RunStores(next, steps, end, Owner(request.target), Response(request, h));
    k :| 0 <= k < |end.at[Delayed(Owner(request.target))]|
      && end.at[Delayed(Owner(request.target))][k] == Response(request, h);
  }

  /**
    End to end: a handler delays its response; then anything may happen except that somebody else sends the cookie of
    that request; sending it then finds the stored response, which goes to the requester with the sender's parameters.
  */
  lemma DelayedResponseArrives(st: State, h: Handler, steps: seq<Step>, end: State, e: Event, interrupted: bool)
    requires Good(st) && Unique(st) && Enabled(st, Process(h)) && SlotLeft(st, h)
    requires st.at[Queue][0].responseRequested && h.delayed && Undisturbed(st, h, steps, end, st.at[Queue][0].cookie)
    requires e.isDelayed && e.cookie == st.at[Queue][0].cookie && Owner(e.source) == Owner(st.at[Queue][0].target)
    requires e.source in st.entities
    ensures end.Known() && end.entities == st.entities
    ensures var request, q := st.at[Queue][0], if interrupted then Raised else Queue;
      var out := PutEvent(end, e, false, interrupted);
      && out.status == SUCCESS
      && out.st.at[q] == end.at[q] + [Response(request, h).(params := e.params, cookie := out.cookie)]
      && Answers(out.st.at[q][|end.at[q]|], request, e.params, end.counter)
      && Absent(out.st.at, request.cookie)
      && PutEvent(out.st, e, false, interrupted).status == E_PARAM
  {
    var k := DelayedStays(st, h, steps, end);
    SendsOwnResponse(end, e, interrupted, k);
  }
}
