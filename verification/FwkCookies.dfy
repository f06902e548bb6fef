/**
  Cookies over every run of the event core. A delayed response is found again by the cookie of its request, so the
  events that matter are the delayed responses and the queued requests that ask for a response.
*/
module FwkCookies {
  import opened FwkStatus
  import opened FwkEvent
  import opened FwkEventTheorems

  type Slots = map<Place, seq<Event>>

  /** Whether an event in place `p` is, or may lead to, a delayed response. */
  predicate Tracks(p: Place, e: Event) {
    p.Delayed? || ((p == Queue || p == Raised) && e.responseRequested)
  }

  /** Position `i` of place `p` holds a tracked event. */
  ghost predicate Live(at: Slots, p: Place, i: int) {
    p in at && 0 <= i < |at[p]| && Tracks(p, at[p][i])
  }

  /** No tracked event carries the cookie `c`. */
  ghost predicate Absent(at: Slots, c: nat) {
    forall p, i {:trigger at[p][i]} :: Live(at, p, i) ==> at[p][i].cookie != c
  }

  ghost predicate Clash(at: Slots, p: Place, i: int, q: Place, j: int) {
    Live(at, p, i) && Live(at, q, j) && (p != q || i != j) && at[p][i].cookie == at[q][j].cookie
  }

  /** No two tracked events share a cookie. */
  ghost predicate Distinct(at: Slots) {
    forall p, i, q, j :: !Clash(at, p, i, q, j)
  }

  /** Delayed responses ask for no response themselves. */
  ghost predicate Responses(at: Slots) {
    forall p, i {:trigger at[p][i]} :: p in at && p.Delayed? && 0 <= i < |at[p]| ==> !at[p][i].responseRequested
  }

  /** Where the event now at position `i` of `q` was before position `k` of `p` was removed. */
  ghost function Origin(p: Place, k: nat, q: Place, i: int): int {
    if q == p && i >= k then i + 1 else i
  }

  lemma RemovedAt(st: State, p: Place, k: nat, q: Place, i: int)
    requires p in st.at && k < |st.at[p]| && Live(Removed(st, p, k).at, q, i)
    ensures Live(st.at, q, Origin(p, k, q, i)) && Removed(st, p, k).at[q][i] == st.at[q][Origin(p, k, q, i)]
  {
  }

  lemma RemovedAbsent(st: State, p: Place, k: nat, c: nat)
    requires p in st.at && k < |st.at[p]| && Absent(st.at, c)
    ensures Absent(Removed(st, p, k).at, c)
  {
    forall q, i | Live(Removed(st, p, k).at, q, i)
      ensures Removed(st, p, k).at[q][i].cookie != c
    {
      RemovedAt(st, p, k, q, i);
    }
  }

  lemma RemovedDistinct(st: State, p: Place, k: nat)
    requires Distinct(st.at) && p in st.at && k < |st.at[p]|
    ensures Distinct(Removed(st, p, k).at)
  {
    var at := Removed(st, p, k).at;
    forall q, i, q', i'
      ensures !Clash(at, q, i, q', i')
    {
      if Live(at, q, i) && Live(at, q', i') {
        RemovedAt(st, p, k, q, i);
        RemovedAt(st, p, k, q', i');
        assert !Clash(st.at, q, Origin(p, k, q, i), q', Origin(p, k, q', i'));
      }
    }
  }

  /** Taking a tracked event out takes its cookie out. */
  lemma RemovedCookie(st: State, p: Place, k: nat)
    requires Distinct(st.at) && Live(st.at, p, k)
    ensures Absent(Removed(st, p, k).at, st.at[p][k].cookie)
  {
    var at := Removed(st, p, k).at;
    forall q, i | Live(at, q, i)
      ensures at[q][i].cookie != st.at[p][k].cookie
    {
      RemovedAt(st, p, k, q, i);
      assert !Clash(st.at, q, Origin(p, k, q, i), p, k);
    }
  }

  lemma AddedAt(st: State, p: Place, e: Event, q: Place, i: int)
    requires p in st.at && Live(Added(st, p, e).at, q, i)
    ensures if q == p && i == |st.at[p]| then Added(st, p, e).at[q][i] == e && Tracks(p, e)
      else Live(st.at, q, i) && Added(st, p, e).at[q][i] == st.at[q][i]
  {
  }

  /** Adding an event keeps the tracked cookies distinct exactly when no tracked event carries its cookie. */
  lemma AddedDistinct(st: State, p: Place, e: Event)
    requires Distinct(st.at) && p in st.at
    ensures Distinct(Added(st, p, e).at) <==> !Tracks(p, e) || Absent(st.at, e.cookie)
  {
    var at := Added(st, p, e).at;
    if !Tracks(p, e) || Absent(st.at, e.cookie) {
      forall q, i, q', i'
        ensures !Clash(at, q, i, q', i')
      {
        if Live(at, q, i) && Live(at, q', i') {
          AddedAt(st, p, e, q, i);
          AddedAt(st, p, e, q', i');
          assert !Clash(st.at, q, i, q', i');
        }
      }
    } else {
      var q, i :| Live(st.at, q, i) && st.at[q][i].cookie == e.cookie;
      assert Clash(at, q, i, p, |st.at[p]|);
    }
  }

  lemma AddedAbsent(st: State, p: Place, e: Event, c: nat)
    requires p in st.at && Absent(st.at, c) && (Tracks(p, e) ==> e.cookie != c)
    ensures Absent(Added(st, p, e).at, c)
  {
    forall q, i | Live(Added(st, p, e).at, q, i)
      ensures Added(st, p, e).at[q][i].cookie != c
    {
      AddedAt(st, p, e, q, i);
    }
  }

  // ------------------------------------------------------------------------------------------------- one put

  /** Whether a put takes a slot from the free list, rather than a delayed response out of its list or nothing. */
  predicate TakesSlot(st: State, e: Event, light: bool)
    requires Free in st.at
  {
    (light || !e.isDelayed) && st.at[Free] != []
  }

  /** The cookie that a slot carries when it enters a queue: a light event leaves the old one. */
  function SlotCookie(st: State, light: bool): nat
    requires Free in st.at && st.at[Free] != []
  {
    if light then st.at[Free][0].cookie else st.counter
  }

  /**
    A put keeps the tracked cookies distinct exactly when it is not a request that enters a queue with a cookie that a
    tracked event carries: for a light request the stale one of its slot, for a standard one the counter.
  */
  lemma PutKeepsDistinct(st: State, e: Event, light: bool, interrupted: bool)
    requires st.Known() && Distinct(st.at) && Responses(st.at) && e.source in st.entities
    ensures Distinct(PutEvent(st, e, light, interrupted).st.at) <==>
      (TakesSlot(st, e, light) && e.responseRequested ==> Absent(st.at, SlotCookie(st, light)))
  {
    var q := if interrupted then Raised else Queue;
    if TakesSlot(st, e, light) {
      var sent := Duplicate(st.at[Free][0], e, light).(cookie := SlotCookie(st, light));
      RemovedDistinct(st, Free, 0);
      AddedDistinct(Removed(st, Free, 0), q, sent);
      FreeUntracked(st, 0, sent.cookie);
      assert PutEvent(st, e, light, interrupted).st.at == Added(Removed(st, Free, 0), q, sent).at;
    } else if !light && e.isDelayed {
      var p := Delayed(Owner(e.source));
      var k := Find(st.at[p], e.cookie);
      if k < |st.at[p]| {
        RemovedDistinct(st, p, k);
        AddedDistinct(Removed(st, p, k), q, st.at[p][k].(params := e.params, cookie := st.counter));
      }
    }
  }

  /** The free list holds no tracked event. */
  lemma FreeUntracked(st: State, k: nat, c: nat)
    requires Free in st.at && k < |st.at[Free]|
    ensures Absent(Removed(st, Free, k).at, c) <==> Absent(st.at, c)
  {
    if Absent(st.at, c) {
      RemovedAbsent(st, Free, k, c);
    } else {
      var q, i :| Live(st.at, q, i) && st.at[q][i].cookie == c;
      assert Live(Removed(st, Free, k).at, q, i);
    }
  }

  // ------------------------------------------------------------------------------------------------- any step

  /** Tracked cookies are distinct and were given out; the counter is the number given out, 32 bits wide. */
  ghost predicate Unique(st: State) {
    && Distinct(st.at) && Responses(st.at)
    && (forall p, i {:trigger st.at[p][i]} :: Live(st.at, p, i) ==> st.at[p][i].cookie < st.puts)
    && st.counter == st.puts % TWO32
  }

  /** A request being processed still owns its cookie. */
  ghost predicate CurrentUnique(st: State) {
    st.current.Some? && st.current.value.responseRequested ==>
      st.current.value.cookie < st.puts && Absent(st.at, st.current.value.cookie)
  }

  /** A light event does not ask for a response. */
  predicate Tame(a: Action) {
    a.light ==> !a.event.responseRequested
  }

  ghost predicate AllTame(acts: seq<Action>)
    decreases |acts|
  {
    acts == [] || (Tame(acts[0]) && AllTame(acts[1..]))
  }

  ghost predicate TameStep(s: Step) {
    match s
    case Outside(a) => Tame(a)
    case Process(h) => AllTame(h.actions) && AllTame(h.late)
    case Transfer => true
  }

  ghost predicate TameRun(steps: seq<Step>)
    decreases |steps|
  {
    steps == [] || (TameStep(steps[0]) && TameRun(steps[1..]))
  }

  lemma RemovedUnique(st: State, p: Place, k: nat)
    requires Unique(st) && p in st.at && k < |st.at[p]|
    ensures Unique(Removed(st, p, k))
  {
    RemovedDistinct(st, p, k);
  }

  lemma AddedUnique(st: State, p: Place, e: Event)
    requires Unique(st) && p in st.at && (p.Delayed? ==> !e.responseRequested)
    requires Tracks(p, e) ==> e.cookie < st.puts && Absent(st.at, e.cookie)
    ensures Unique(Added(st, p, e))
  {
    AddedDistinct(st, p, e);
  }

  /** Before the counter wraps, its value is a cookie that no tracked event carries. */
  lemma NumberedUnique(st: State)
    requires Unique(st) && st.puts < TWO32
    ensures Unique(Numbered(st)) && Absent(st.at, st.counter) && st.counter == st.puts
  {
  }

  lemma PutEventUnique(st: State, e: Event, light: bool, interrupted: bool)
    requires st.Known() && Unique(st) && e.source in st.entities && (light ==> !e.responseRequested)
    requires PutEvent(st, e, light, interrupted).st.puts <= TWO32
    ensures Unique(PutEvent(st, e, light, interrupted).st)
  {
    var q := if interrupted then Raised else Queue;
    var p := if !light && e.isDelayed then Delayed(Owner(e.source)) else Free;
    var k := if !light && e.isDelayed then Find(st.at[p], e.cookie) else 0;
    if k < |st.at[p]| {
      var rest := Removed(st, p, k);
      RemovedUnique(st, p, k);
      if light {
        AddedUnique(rest, q, Duplicate(st.at[Free][0], e, true));
      } else {
        NumberedUnique(rest);
        var sent := if e.isDelayed then st.at[p][k] else e;
        AddedUnique(Numbered(rest), q, sent.(params := e.params, cookie := st.counter));
      }
    }
  }

  /** A put brings back no old cookie. */
  lemma PutEventAbsent(st: State, e: Event, light: bool, interrupted: bool, c: nat)
    requires st.Known() && Unique(st) && e.source in st.entities && (light ==> !e.responseRequested)
    requires PutEvent(st, e, light, interrupted).st.puts <= TWO32 && c < st.puts && Absent(st.at, c)
    ensures Absent(PutEvent(st, e, light, interrupted).st.at, c)
  {
    var q := if interrupted then Raised else Queue;
    var p := if !light && e.isDelayed then Delayed(Owner(e.source)) else Free;
    var k := if !light && e.isDelayed then Find(st.at[p], e.cookie) else 0;
    if k < |st.at[p]| {
      RemovedAbsent(st, p, k, c);
      if light {
        AddedAbsent(Removed(st, p, k), q, Duplicate(st.at[Free][0], e, true), c);
      } else {
        var sent := if e.isDelayed then st.at[p][k] else e;
        AddedAbsent(Removed(st, p, k), q, sent.(params := e.params, cookie := st.counter), c);
      }
    }
  }

  lemma ActedUnique(st: State, a: Action)
    requires st.Known() && Unique(st) && a.event.target in st.entities && Tame(a) && Acted(st, a).puts <= TWO32
    ensures Unique(Acted(st, a)) && (CurrentUnique(st) ==> CurrentUnique(Acted(st, a)))
  {
    var e := a.event.(source := SourceOf(st, a.event, a.interrupted));
    if e.source in st.entities {
      PutEventUnique(st, e, a.light, a.interrupted);
      PutEventKnown(st, e, a.light, a.interrupted);
      if CurrentUnique(st) && st.current.Some? && st.current.value.responseRequested {
        PutEventAbsent(st, e, a.light, a.interrupted, st.current.value.cookie);
      }
    }
  }

  lemma ActedCounts(st: State, a: Action)
    requires st.Known()
    ensures Acted(st, a).puts >= st.puts
  {
  }

  lemma {:induction false} ActsCount(st: State, acts: seq<Action>)
    requires st.Known() && AllPossible(st.entities, acts)
    ensures Acts(st, acts).puts >= st.puts
    decreases |acts|
  {
    if acts == [] {
    } else {
      PutKnown(st, acts[0].event, acts[0].light, acts[0].interrupted);
      ActedCounts(st, acts[0]);
      ActsCount(Acted(st, acts[0]), acts[1..]);
    }
  }

  lemma {:induction false} ActsUnique(st: State, acts: seq<Action>)
    requires st.Known() && AllPossible(st.entities, acts) && AllTame(acts) && Unique(st)
    requires Acts(st, acts).puts <= TWO32
    ensures Unique(Acts(st, acts)) && (CurrentUnique(st) ==> CurrentUnique(Acts(st, acts)))
    decreases |acts|
  {
    if acts == [] {
    } else {
      PutKnown(st, acts[0].event, acts[0].light, acts[0].interrupted);
      ActsCount(Acted(st, acts[0]), acts[1..]);
      ActedUnique(st, acts[0]);
      ActsUnique(Acted(st, acts[0]), acts[1..]);
    }
  }

  /** A stored response takes over the cookie of its request, which is about to be released. */
  lemma AnsweredUnique(st: State, r: Event)
    requires st.Known() && r.source in st.entities && Unique(st) && !r.responseRequested
    requires r.cookie < st.puts && Absent(st.at, r.cookie) && Answered(st, r).puts <= TWO32
    ensures Unique(Answered(st, r))
  {
    if !r.isDelayed {
      PutEventUnique(st, r, false, false);
    } else if st.at[Free] != [] {
      RemovedUnique(st, Free, 0);
      RemovedAbsent(st, Free, 0, r.cookie);
      AddedUnique(Removed(st, Free, 0), Delayed(Owner(r.source)), r);
    }
  }

  lemma BegunUnique(st: State)
    requires st.Known() && st.at[Queue] != [] && Unique(st)
    ensures Unique(Begun(st)) && CurrentUnique(Begun(st))
  {
    RemovedUnique(st, Queue, 0);
    if st.at[Queue][0].responseRequested {
      RemovedCookie(st, Queue, 0);
    }
  }

  lemma RespondedUnique(st: State, h: Handler)
    requires st.Known() && st.at[Queue] != [] && Possible(st.entities, h) && Unique(st)
    requires AllTame(h.actions) && Responded(st, h).puts <= TWO32
    ensures Unique(Responded(st, h))
  {
    BegunUnique(st);
    RemovedKnown(st, Queue, 0);
    var acted := Acts(Begun(st), h.actions);
    ActsKnown(Begun(st), h.actions);
    AnsweredCounts(acted, Response(st.at[Queue][0], h));
    ActsUnique(Begun(st), h.actions);
    if st.at[Queue][0].responseRequested {
      AnsweredUnique(acted, Response(st.at[Queue][0], h));
    }
  }

  lemma AnsweredCounts(st: State, r: Event)
    requires st.Known() && r.source in st.entities
    ensures Answered(st, r).puts >= st.puts
  {
  }

  lemma ProcessUnique(st: State, h: Handler)
    requires st.Known() && st.at[Queue] != [] && Possible(st.entities, h) && Unique(st)
    requires AllTame(h.actions) && AllTame(h.late) && ProcessNext(st, h).puts <= TWO32
    ensures Unique(ProcessNext(st, h))
  {
    RespondedKnown(st, h);
    var responded := Responded(st, h);
    ActsCount(responded, h.late);
    ActsKnown(responded, h.late);
    RespondedUnique(st, h);
    ActsUnique(responded, h.late);
    AddedUnique(Acts(responded, h.late), Free, st.at[Queue][0]);
  }

  lemma TransferredUnique(st: State)
    requires st.Known() && st.at[Raised] != [] && Unique(st)
    ensures Unique(Transferred(st))
  {
    var e := st.at[Raised][0];
    RemovedUnique(st, Raised, 0);
    if e.responseRequested {
      RemovedCookie(st, Raised, 0);
    }
    AddedUnique(Removed(st, Raised, 0), Queue, e);
  }

  /** Every step in which light events ask for no response keeps the cookies unique, before the counter wraps. */
  lemma NextUnique(st: State, s: Step)
    requires Good(st) && Enabled(st, s) && TameStep(s) && Unique(st) && Next(st, s).puts <= TWO32
    ensures Unique(Next(st, s))
  {
    match s
    case Outside(a) => ActedUnique(st, a);
    case Process(h) => ProcessUnique(st, h);
    case Transfer => TransferredUnique(st);
  }

  lemma NextCounts(st: State, s: Step)
    requires Good(st) && Enabled(st, s)
    ensures Next(st, s).puts >= st.puts
  {
    match s
    case Outside(a) => ActedCounts(st, a);
    case Process(h) =>
      RespondedKnown(st, h);
      RemovedKnown(st, Queue, 0);
      ActsCount(Begun(st), h.actions);
      ActsKnown(Begun(st), h.actions);
      AnsweredCounts(Acts(Begun(st), h.actions), Response(st.at[Queue][0], h));
      ActsCount(Responded(st, h), h.late);
    case Transfer =>
  }

  // ------------------------------------------------------------------------------------------------ whole runs

  lemma InitialUnique(entities: set<Entity>, slots: nat)
    ensures Unique(Initial(entities, slots))
  {
    InitialKnown(entities, slots);
  }

  lemma {:induction false} RunCounts(st: State, steps: seq<Step>, end: State)
    requires Good(st) && Reaches(st, steps, end)
    ensures end.puts >= st.puts
    decreases |steps|
  {
    if steps == [] {
    } else {
      NextGood(st, steps[0]);
      NextCounts(st, steps[0]);
      RunCounts(Next(st, steps[0]), steps[1..], end);
    }
  }

  /**
    Over every run in which light events ask for no response and at most 2^32 cookies are given out, no two delayed
    responses or queued requests share a cookie.
  */
  lemma {:induction false} RunUnique(st: State, steps: seq<Step>, end: State)
    requires Good(st) && Unique(st) && Reaches(st, steps, end) && TameRun(steps) && end.puts <= TWO32
    ensures Unique(end)
    decreases |steps|
  {
    if steps == [] {
    } else {
      var next := Next(st, steps[0]);
      NextGood(st, steps[0]);
      RunCounts(next, steps[1..], end);
      NextUnique(st, steps[0]);
      RunUnique(next, steps[1..], end);
    }
  }
}
