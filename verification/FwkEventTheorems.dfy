/** The order of events over every run of the event core. */
module FwkEventTheorems {
  import opened FwkStatus
  import opened FwkEvent

  function Events(entries: seq<Entry>): (r: seq<Event>)
    ensures |r| == |entries| && forall i :: 0 <= i < |r| ==> r[i] == entries[i].event
  {
    seq(|entries|, i requires 0 <= i < |entries| => entries[i].event)
  }

  /** The events among the entries that were raised by interrupts. */
  function Moved(entries: seq<Entry>): seq<Event> {
    if entries == [] then
      []
    else
      var last := entries[|entries| - 1];
      Moved(entries[..|entries| - 1]) + if last.raised then [last.event] else []
  }

  /**
    What entered the event queue is what was handled followed by what is queued; what was raised is what was
    transferred followed by what is still raised; and an event raised by an interrupt entered the event queue when
    everything that had entered before it was already handled.
  */
  ghost predicate Ordered(st: State)
    requires st.Known()
  {
    && Events(st.entered) == st.handled + st.at[Queue]
    && st.raised == Moved(st.entered) + st.at[Raised]
    && (forall i :: 0 <= i < |st.entered| && st.entered[i].raised ==> st.entered[i].handled == i)
  }

  lemma EntersOrdered(st: State, x: Entry)
    requires st.Known() && Ordered(st) && (x.raised ==> st.at[Queue] == [] && x.handled == |st.handled|)
    ensures Events(st.entered + [x]) == st.handled + (st.at[Queue] + [x.event])
    ensures Moved(st.entered + [x]) == Moved(st.entered) + if x.raised then [x.event] else []
    ensures forall i :: 0 <= i < |st.entered + [x]| && (st.entered + [x])[i].raised ==>
      (st.entered + [x])[i].handled == i
  {
    assert (st.entered + [x])[..|st.entered|] == st.entered;
    assert |Events(st.entered)| == |st.handled| + |st.at[Queue]|;
    var all := Events(st.entered) + [x.event];
    assert Events(st.entered + [x]) == all;
    assert all == st.handled + (st.at[Queue] + [x.event]);
  }

  lemma EnqueueOrdered(st: State, e: Event, interrupted: bool)
    requires st.Known() && Ordered(st) && e.source in st.entities && e.target in st.entities
    ensures Enqueue(st, e, interrupted).Known() && Ordered(Enqueue(st, e, interrupted))
  {
    AddedKnown(st, if interrupted then Raised else Queue, e);
    if interrupted {
      assert Moved(st.entered) + st.at[Raised] + [e] == Moved(st.entered) + (st.at[Raised] + [e]);
    } else {
      EntersOrdered(st, Entry(e, false, |st.handled|));
      assert Moved(st.entered) + [] == Moved(st.entered);
    }
  }

  lemma PutEventOrdered(st: State, e: Event, light: bool, interrupted: bool)
    requires st.Known() && Ordered(st) && e.source in st.entities && e.target in st.entities
    ensures var next := PutEvent(st, e, light, interrupted).st; next.Known() && Ordered(next)
  {
    var p := if !light && e.isDelayed then Delayed(Owner(e.source)) else Free;
    var k := if !light && e.isDelayed then Find(st.at[p], e.cookie) else 0;
    if k < |st.at[p]| {
      RemovedKnown(st, p, k);
      var sent := if p == Free then Duplicate(st.at[Free][0], e, light) else st.at[p][k];
      var rest := Removed(st, p, k);
      EnqueueOrdered(if light then rest else Numbered(rest),
        if light then sent else sent.(params := e.params, cookie := st.counter), interrupted);
    }
  }

  lemma ActedOrdered(st: State, a: Action)
    requires st.Known() && Ordered(st) && a.event.target in st.entities
    ensures Acted(st, a).Known() && Acted(st, a).entities == st.entities && Ordered(Acted(st, a))
  {
    PutKnown(st, a.event, a.light, a.interrupted);
    var source := SourceOf(st, a.event, a.interrupted);
    if source in st.entities {
      PutEventOrdered(st, a.event.(source := source), a.light, a.interrupted);
    }
  }

  lemma {:induction false} ActsOrdered(st: State, acts: seq<Action>)
    requires st.Known() && Ordered(st) && AllPossible(st.entities, acts)
    ensures Acts(st, acts).Known() && Ordered(Acts(st, acts))
    decreases |acts|
  {
    if acts == [] {
    } else {
      ActedOrdered(st, acts[0]);
      ActsOrdered(Acted(st, acts[0]), acts[1..]);
    }
  }

  lemma FirstMoves(before: seq<Event>, after: seq<Event>)
    requires after != []
    ensures before + after == (before + [after[0]]) + (after[..0] + after[1..])
  {
    assert after == [after[0]] + after[1..];
  }

  lemma BegunOrdered(st: State)
    requires st.Known() && Ordered(st) && st.at[Queue] != []
    ensures Begun(st).Known() && Ordered(Begun(st))
  {
    RemovedKnown(st, Queue, 0);
    FirstMoves(st.handled, st.at[Queue]);
  }

  lemma ProcessOrdered(st: State, h: Handler)
    requires st.Known() && st.at[Queue] != [] && Possible(st.entities, h) && Ordered(st)
    ensures ProcessNext(st, h).Known() && Ordered(ProcessNext(st, h))
  {
    hide Put, PutEvent;
    ProcessNextKnown(st, h);
    BegunOrdered(st);
    ActsOrdered(Begun(st), h.actions);
    RespondedKnown(st, h);
    var e := st.at[Queue][0];
    if e.responseRequested && !h.delayed {
      ActsKnown(Begun(st), h.actions);
      PutEventOrdered(Acts(Begun(st), h.actions), Response(e, h), false, false);
    }
    assert Ordered(Responded(st, h));
    ActsOrdered(Responded(st, h), h.late);
  }

  lemma TransferredOrdered(st: State)
    requires st.Known() && st.at[Queue] == [] && st.at[Raised] != [] && Ordered(st)
    ensures Transferred(st).Known() && Ordered(Transferred(st))
  {
    TransferredKnown(st);
    var e := st.at[Raised][0];
    EntersOrdered(st, Entry(e, true, |st.handled|));
    FirstMoves(Moved(st.entered), st.at[Raised]);
  }

  lemma NextOrdered(st: State, s: Step)
    requires st.Known() && st.current == None && Enabled(st, s) && Ordered(st)
    ensures Next(st, s).Known() && Ordered(Next(st, s))
  {
    match s
    case Outside(a) => ActedOrdered(st, a);
    case Process(h) => ProcessOrdered(st, h);
    case Transfer => TransferredOrdered(st);
  }

  // ------------------------------------------------------------------------------------------------ whole runs

  ghost predicate Good(st: State) {
    st.Known() && st.current == None && Ordered(st)
  }

  lemma InitialGood(entities: set<Entity>, slots: nat)
    ensures Good(Initial(entities, slots))
  {
    InitialKnown(entities, slots);
  }

  lemma NextGood(st: State, s: Step)
    requires Good(st) && Enabled(st, s)
    ensures Good(Next(st, s)) && Next(st, s).entities == st.entities && Next(st, s).at.Keys == st.at.Keys
  {
    NextKnown(st, s);
    NextOrdered(st, s);
  }

  /** Every run keeps the order of events. */
  lemma {:induction false} RunOrdered(st: State, steps: seq<Step>, end: State)
    requires Good(st) && Reaches(st, steps, end)
    ensures Good(end) && end.entities == st.entities && end.at.Keys == st.at.Keys
    decreases |steps|
  {
    if steps == [] {
    } else {
      NextGood(st, steps[0]);
      RunOrdered(Next(st, steps[0]), steps[1..], end);
    }
  }
}
