/**
  The event core over its fixed event table (framework/src/fwk_core.c, framework/src/fwk_delayed_resp.c). A slot is an
  index into the table; the operations move slots between the lists, writing events into them on the way. The lists
  are the sequences that module SList proves the intrusive lists to be.
*/
module FwkCore {
  import opened FwkStatus
  import opened FwkEvent
  import opened FwkPuts
  import opened Pool

  type Lists = map<Place, seq<nat>>

  function NoSlots(entities: set<Entity>): Lists {
    map p | p in Places(entities) :: []
  }

  lemma StartsEmpty(entities: set<Entity>, n: nat, table: seq<Event>)
    ensures Partition(n, NoSlots(entities), From(0, n), map[])
    ensures var st := Initial(entities, 0);
      && Holds(table, NoSlots(entities), st.at) && st.Known() && st.current == None && st.counter == 0
      && st.entities == entities
  {
    InitialKnown(entities, 0);
  }

  lemma EnteredKnown(st: State, x: Entry)
    requires st.Known()
    ensures st.(entered := st.entered + [x]).Known()
  {
  }

  lemma TakeNext(handlers: seq<Handler>, k: nat)
    requires k < |handlers|
    ensures handlers[..k + 1] == handlers[..k] + [handlers[k]]
  {
  }

  lemma RanNext(steps: seq<Step>, s: Step)
    ensures Ran(steps + [s]) == Ran(steps) + if s.Process? then [s.handler] else []
  {
    assert (steps + [s])[..|steps|] == steps;
  }

  method ZeroedTable(slots: nat) returns (table: array<Event>)
    ensures fresh(table) && table.Length == slots && forall s :: 0 <= s < slots ==> table[s] == ZERO
  {
    table := new Event[slots](_ => ZERO);
  }

  class FwkCtx {
    const table: array<Event>
    const entities: set<Entity>
    var at: Lists
    var current: Option<nat>
    /** `event_cookie_counter`, 32 bits wide. */
    var counter: nat
    /** The slots in no list: being moved, or current. */
    ghost var hands: set<nat>
    ghost var home: map<nat, Place>
    ghost var state: State

    ghost predicate Contents()
      reads this, table
    {
      && Holds(table[..], at, state.at)
      && state.counter == counter && state.entities == entities
      && current.Some? == state.current.Some?
      && (current.Some? ==> current.value in hands && current.value < table.Length)
      && (current.Some? ==> table[current.value] == state.current.value)
    }

    ghost predicate Valid()
      reads this, table
    {
      Partition(table.Length, at, hands, home) && Contents() && state.Known()
    }

    /** Between two operations the only slot in no list is the current one. */
    ghost predicate Settled()
      reads this, table
    {
      Valid() && hands == if current.Some? then {current.value} else {}
    }

    /** `__fwk_init`: a zeroed table whose slots are all pushed to the free list. */
    constructor (entities: set<Entity>, slots: nat)
      ensures Settled() && current == None && fresh(table) && state == Initial(entities, slots)
    {
      hide Partition, Holds, Initial, From;
      this.entities := entities;
      var zeroed := ZeroedTable(slots);
      table := zeroed;
      at, current, counter := NoSlots(entities), None, 0;
      hands, home, state := From(0, slots), map[], Initial(entities, 0);
      new;
      StartsEmpty(entities, slots, table[..]);
      assert Valid();
      FreeAll();
    }

    /** Pushes the slots of a zeroed table to the free list one by one. */
    method FreeAll()
      requires Valid() && current == None && state == Initial(entities, 0)
      requires hands == From(0, table.Length) && forall s :: 0 <= s < table.Length ==> table[s] == ZERO
      modifies this`at, this`hands, this`home, this`state
      ensures Settled() && state == Initial(entities, table.Length)
    {
      for i := 0 to table.Length
        invariant Valid() && state == Initial(entities, i) && hands == From(i, table.Length)
      {
        FromNext(i, table.Length);
        FreeSlot(i);
      }
    }

    method FreeSlot(s: nat)
      requires Valid() && current == None && state == Initial(entities, s) && s in hands && table[s] == ZERO
      modifies this`at, this`hands, this`home, this`state
      ensures Valid() && hands == old(hands) - {s} && state == Initial(entities, s + 1)
    {
      Link(Free, s);
    }

    /** Takes the slot at position `k` of a list in hand. */
    method Unlink(p: Place, k: nat) returns (s: nat)
      requires Valid() && p in at && k < |at[p]|
      modifies this`at, this`hands, this`home, this`state
      ensures Valid() && s == old(at[p][k]) && s !in old(hands) && hands == old(hands) + {s}
      ensures table[s] == old(state.at[p][k]) && state == Removed(old(state), p, k)
    {
      s := at[p][k];
      DroppedPartition(table.Length, at, hands, home, p, k);
      RemovedKnown(state, p, k);
      DroppedHolds(table[..], at, state.at, p, k);
      at := Dropped(at, p, k);
      hands, home, state := hands + {s}, home - {s}, Removed(state, p, k);
    }

    /** Puts a slot in hand at the end of a list. */
    method Link(p: Place, s: nat)
      requires Valid() && p in at && s in hands && (current.Some? ==> s != current.value)
      requires p != Free ==> table[s].source in entities && table[s].target in entities
      modifies this`at, this`hands, this`home, this`state
      ensures Valid() && hands == old(hands) - {s} && state == Added(old(state), p, table[s])
    {
      AppendedPartition(table.Length, at, hands, home, p, s);
      AddedKnown(state, p, table[s]);
      AppendedHolds(table[..], at, state.at, p, s);
      at := Appended(at, p, s);
      hands, home, state := hands - {s}, home[s := p], Added(state, p, table[s]);
    }

    /** Writes an event into a slot in hand. */
    method Write(s: nat, e: Event)
      requires Valid() && s in hands && (current.Some? ==> s != current.value)
      modifies table
      ensures Valid() && table[s] == e
    {
      table[s] := e;
    }

    /** `duplicate_event`: a slot from the free list with the event in it, if there is one. */
    method DuplicateEvent(e: Event, light: bool) returns (s: Option<nat>)
      requires Valid()
      modifies this`at, this`hands, this`home, this`state, table
      ensures Valid()
      ensures old(state.at[Free]) == [] ==> s == None && state == old(state) && hands == old(hands)
      ensures old(state.at[Free]) != [] ==>
        && s.Some? && s.value !in old(hands) && hands == old(hands) + {s.value}
        && state == Removed(old(state), Free, 0) && table[s.value] == Duplicate(old(state.at[Free][0]), e, light)
    {
      if at[Free] == [] {
        return None;
      }
      var slot := Unlink(Free, 0);
      Write(slot, Duplicate(table[slot], e, light));
      s := Some(slot);
    }

    /** `__fwk_search_delayed_response`: the position of the first delayed response of `id` with the cookie. */
    method SearchDelayedResponse(id: Entity, cookie: nat) returns (k: nat)
      requires Valid() && id in entities
      ensures k == Find(state.at[Delayed(Owner(id))], cookie)
    {
      var p := Delayed(Owner(id));
      k := 0;
      while k < |at[p]| && table[at[p][k]].cookie != cookie
        invariant k <= |at[p]|
        invariant forall i :: 0 <= i < k ==> state.at[p][i].cookie != cookie
      {
        k := k + 1;
      }
      FindIs(state.at[p], cookie, k);
    }

    /** `fwk_get_delayed_response`. */
    method GetDelayedResponse(id: Entity, cookie: nat, interrupted: bool) returns (status: int, event: Option<Event>)
      requires Valid()
      ensures interrupted ==> status == E_ACCESS
      ensures !interrupted ==>
        (status == SUCCESS <==> id in entities && exists i :: 0 <= i < |state.at[Delayed(Owner(id))]| &&
                                                              state.at[Delayed(Owner(id))][i].cookie == cookie)
      ensures !interrupted && status != SUCCESS ==> status == E_PARAM
      ensures status == SUCCESS ==>
        && event.Some? && event.value.cookie == cookie && event.value in state.at[Delayed(Owner(id))]
      ensures status != SUCCESS ==> event == None
    {
      event := None;
      if interrupted {
        return E_ACCESS, None;
      }
      if id !in entities {
        return E_PARAM, None;
      }
      var k := SearchDelayedResponse(id, cookie);
      if k == |at[Delayed(Owner(id))]| {
        return E_PARAM, None;
      }
      status, event := SUCCESS, Some(table[at[Delayed(Owner(id))][k]]);
    }

    method EnqueueSlot(s: nat, interrupted: bool)
      requires Valid() && s in hands && (current.Some? ==> s != current.value)
      requires table[s].source in entities && table[s].target in entities
      modifies this`at, this`hands, this`home, this`state
      ensures Valid() && hands == old(hands) - {s} && state == Enqueue(old(state), table[s], interrupted)
    {
      if interrupted {
        Link(Raised, s);
        state := state.(raised := state.raised + [table[s]]);
      } else {
        Enter(s, false);
      }
    }

    /** A slot in hand enters the event queue. */
    method Enter(s: nat, moved: bool)
      requires Valid() && s in hands && (current.Some? ==> s != current.value)
      requires table[s].source in entities && table[s].target in entities
      modifies this`at, this`hands, this`home, this`state
      ensures Valid() && hands == old(hands) - {s}
      ensures state == Added(old(state), Queue, table[s]).(entered :=
        old(state).entered + [Entry(table[s], moved, |old(state).handled|)])
    {
      Link(Queue, s);
      EnteredKnown(state, Entry(table[s], moved, |state.handled|));
      state := state.(entered := state.entered + [Entry(table[s], moved, |state.handled|)]);
    }

    /** Numbers the event in a slot with the next cookie. */
    method NumberSlot(s: nat)
      requires Valid() && s in hands && (current.Some? ==> s != current.value)
      modifies this`counter, this`state, table
      ensures Valid() && state == Numbered(old(state)) && table[s] == old(table[s]).(cookie := old(state).counter)
    {
      Write(s, table[s].(cookie := counter));
      counter := (counter + 1) % TWO32;
      state := Numbered(state);
    }

    /** The slot of the delayed response that `e` answers, out of its list and with the parameters of `e`. */
    method TakeDelayed(e: Event) returns (s: Option<nat>)
      requires Valid() && e.source in entities
      modifies this`at, this`hands, this`home, this`state, table
      ensures Valid()
      ensures var p := Delayed(Owner(e.source));
        var k := Find(old(state.at[p]), e.cookie);
        if k == |old(state.at[p])| then
          s == None && state == old(state) && hands == old(hands)
        else
          && s.Some? && s.value !in old(hands) && hands == old(hands) + {s.value}
          && state == Removed(old(state), p, k) && table[s.value] == old(state.at[p][k]).(params := e.params)
          && table[s.value].source in entities && table[s.value].target in entities
    {
      var p := Delayed(Owner(e.source));
      var k := SearchDelayedResponse(e.source, e.cookie);
      if k == |at[p]| {
        return None;
      }
      var slot := Unlink(p, k);
      Write(slot, table[slot].(params := e.params));
      s := Some(slot);
    }

    /** Numbers a standard event in its slot and enqueues it. */
    method Send(s: nat, light: bool, interrupted: bool) returns (cookie: nat)
      requires Valid() && s in hands && (current.Some? ==> s != current.value)
      requires table[s].source in entities && table[s].target in entities
      modifies this`at, this`counter, this`hands, this`home, this`state, table
      ensures Valid() && hands == old(hands) - {s}
      ensures cookie == if light then old(table[s]).cookie else old(state).counter
      ensures state ==
        Enqueue(if light then old(state) else Numbered(old(state)), old(table[s]).(cookie := cookie), interrupted)
    {
      cookie := table[s].cookie;
      if !light {
        cookie := counter;
        NumberSlot(s);
      }
      EnqueueSlot(s, interrupted);
    }

    /** `put_event`. */
    method PutEvent(e: Event, light: bool, interrupted: bool) returns (status: int, cookie: nat)
      requires Valid() && e.source in entities && e.target in entities
      modifies this`at, this`counter, this`hands, this`home, this`state, table
      ensures Valid() && hands == old(hands)
      ensures Outcome(state, status, cookie) == FwkEvent.PutEvent(old(state), e, light, interrupted)
    {
      var s;
      if !light && e.isDelayed {
        s := TakeDelayed(e);
        if s == None {
          return E_PARAM, e.cookie;
        }
      } else {
        s := DuplicateEvent(e, light);
        if s == None {
          return E_NOMEM, e.cookie;
        }
      }
      PutBack(old(hands), s.value);
      cookie := Send(s.value, light, interrupted);
      status, cookie := SUCCESS, if light then e.cookie else cookie;
    }

    /** `__fwk_put_event` and `__fwk_put_event_light`. */
    method Put(e: Event, light: bool, interrupted: bool) returns (status: int, cookie: nat)
      requires Settled() && e.target in entities
      modifies this`at, this`counter, this`hands, this`home, this`state, table
      ensures Settled()
      ensures Outcome(state, status, cookie) == FwkEvent.Put(old(state), e, light, interrupted)
      ensures Puts(old(state), state, e, light, interrupted, status, cookie)
    {
      PutExact(state, e, light, interrupted);
      hide Puts;
      var source := e.source;
      if !interrupted && current.Some? {
        source := table[current.value].target;
      } else if source !in entities {
        return E_PARAM, e.cookie;
      }
      status, cookie := PutEvent(e.(source := source), light, interrupted);
    }

    /** What happens while a handler runs. */
    method RunActions(acts: seq<Action>)
      requires Settled() && AllPossible(entities, acts)
      modifies this`at, this`counter, this`hands, this`home, this`state, table
      ensures Settled() && state == Acts(old(state), acts)
    {
      for i := 0 to |acts|
        invariant Settled() && AllPossible(entities, acts) && AllPossible(entities, acts[i..])
        invariant Acts(state, acts[i..]) == Acts(old(state), acts)
      {
        ghost var st := state;
        var a := acts[i];
        assert acts[i..][0] == a && acts[i..][1..] == acts[i + 1..];
        PutKnown(st, a.event, a.light, a.interrupted);
        var _, _ := Put(a.event, a.light, a.interrupted);
      }
    }

    /** Puts the response of the current event, or stores it if it is delayed and a slot is free. */
    method Answer(r: Event)
      requires Settled() && r.source in entities && r.target in entities
      modifies this`at, this`counter, this`hands, this`home, this`state, table
      ensures Settled() && state == Answered(old(state), r)
    {
      if !r.isDelayed {
        var _, _ := PutEvent(r, false, false);
      } else {
        var s := DuplicateEvent(r, false);
        if s.Some? {
          PutBack(old(hands), s.value);
          Link(Delayed(Owner(r.source)), s.value);
        }
      }
    }

    /** The first slot of the event queue becomes current. */
    method Begin()
      requires Settled() && current == None && at[Queue] != []
      modifies this`at, this`current, this`hands, this`home, this`state
      ensures Settled() && current.Some? && state == Begun(old(state))
    {
      var s := Unlink(Queue, 0);
      PutBack({}, s);
      MakeCurrent(s);
    }

    method MakeCurrent(s: nat)
      requires Valid() && current == None && s in hands && table[s].source in entities && table[s].target in entities
      modifies this`current, this`state
      ensures Valid() && current == Some(s)
      ensures state == old(state).(current := Some(table[s]), handled := old(state).handled + [table[s]])
    {
      current, state := Some(s), state.(current := Some(table[s]), handled := state.handled + [table[s]]);
    }

    /** `free_event` of the current event. */
    method Release()
      requires Settled() && current.Some?
      modifies this`at, this`current, this`hands, this`home, this`state
      ensures Settled() && current == None && state == Released(old(state))
    {
      var s := current.value;
      current, state := None, state.(current := None);
      Link(Free, s);
    }

    /** The first half of `process_next_event`: the given run of the target's handler, and its response. */
    method Handle(h: Handler)
      requires Settled() && current == None && at[Queue] != [] && Possible(entities, h)
      modifies this, table
      ensures Settled() && current.Some? && state == Responded(old(state), h)
    {
      ghost var st := state;
      Begin();
      ActsKnown(Begun(st), h.actions);
      RunActions(h.actions);
      var e := table[current.value];
      if e.responseRequested {
        Answer(Response(e, h));
      }
    }

    /** `process_next_event`. */
    method ProcessNextEvent(h: Handler)
      requires Settled() && current == None && at[Queue] != [] && Possible(entities, h)
      modifies this, table
      ensures Settled() && current == None && state == ProcessNext(old(state), h)
      ensures Responds(old(state), state, h)
    {
      hide Responds;
      ResponseQueued(state, h);
      RespondedKnown(state, h);
      ActsKnown(Responded(state, h), h.late);
      Handle(h);
      RunActions(h.late);
      Release();
    }

    /** `process_isr`. */
    method ProcessIsr() returns (moved: bool)
      requires Settled() && current == None
      modifies this`at, this`hands, this`home, this`state
      ensures Settled()
      ensures moved <==> old(state.at[Raised]) != []
      ensures state == if moved then Transferred(old(state)) else old(state)
    {
      if at[Raised] == [] {
        return false;
      }
      var s := Unlink(Raised, 0);
      PutBack(old(hands), s);
      Enter(s, true);
      moved := true;
    }

    /** One more event of a run. */
    method ProcessInRun(h: Handler, ghost st: State, ghost steps: seq<Step>) returns (ghost more: seq<Step>)
      requires Settled() && current == None && at[Queue] != [] && Possible(entities, h) && Reaches(st, steps, state)
      modifies this, table
      ensures Settled() && current == None && state.entities == old(state.entities)
      ensures Reaches(st, more, state) && Ran(more) == Ran(steps) + [h]
    {
      more := steps + [Process(h)];
      ReachesNext(st, steps, state, Process(h));
      RanNext(steps, Process(h));
      ProcessNextKnown(state, h);
      ProcessNextEvent(h);
    }

    /** One more transfer of a run, if an event is raised. */
    method TransferInRun(ghost st: State, ghost steps: seq<Step>) returns (moved: bool, ghost more: seq<Step>)
      requires Settled() && current == None && at[Queue] == [] && Reaches(st, steps, state)
      modifies this`at, this`hands, this`home, this`state
      ensures Settled() && state.entities == old(state.entities)
      ensures Reaches(st, more, state) && Ran(more) == Ran(steps)
      ensures if moved then at[Queue] != [] else at[Queue] == [] && at[Raised] == []
    {
      more := steps;
      if at[Raised] != [] {
        more := steps + [Transfer];
        ReachesNext(st, steps, state, Transfer);
        RanNext(steps, Transfer);
      }
      moved := ProcessIsr();
    }

    /** The inner loop of `fwk_process_event_queue`, within a run that used the handlers before `from`. */
    method ProcessEvents(handlers: seq<Handler>, from: nat, ghost st: State, ghost steps: seq<Step>)
        returns (used: nat, ghost more: seq<Step>)
      requires Settled() && current == None && state.entities == st.entities
      requires from <= |handlers| && Ran(steps) == handlers[..from] && Reaches(st, steps, state)
      requires forall i :: 0 <= i < |handlers| ==> Possible(entities, handlers[i])
      modifies this, table
      ensures Settled() && current == None && state.entities == st.entities
      ensures from <= used <= |handlers| && Ran(more) == handlers[..used] && Reaches(st, more, state)
      ensures at[Queue] == [] || used == |handlers|
      ensures from == used ==> at[Queue] == old(at[Queue])
    {
      used, more := from, steps;
      while at[Queue] != [] && used < |handlers|
        invariant Settled() && current == None && state.entities == st.entities
        invariant from <= used <= |handlers| && Ran(more) == handlers[..used] && Reaches(st, more, state)
        invariant from == used ==> at[Queue] == old(at[Queue])
        decreases |handlers| - used
      {
        more := ProcessInRun(handlers[used], st, more);
        TakeNext(handlers, used);
        used := used + 1;
      }
    }

    /**
      `fwk_process_event_queue`, as long as the runs of handlers given last: process events while there are any, then
      transfer one raised event, until there is none. `steps` is the run of the event core it performs.
    */
    method ProcessEventQueue(handlers: seq<Handler>) returns (used: nat, ghost steps: seq<Step>)
      requires Settled() && current == None && forall i :: 0 <= i < |handlers| ==> Possible(entities, handlers[i])
      modifies this, table
      ensures Settled() && current == None
      ensures used <= |handlers| && Ran(steps) == handlers[..used] && Reaches(old(state), steps, state)
      ensures used == |handlers| || (state.at[Queue] == [] && state.at[Raised] == [])
    {
      ghost var st := state;
      used, steps := 0, [];
      ghost var first := true;
      while true
        invariant Settled() && current == None && state.entities == st.entities
        invariant used <= |handlers| && Ran(steps) == handlers[..used] && Reaches(st, steps, state)
        invariant first || at[Queue] != []
        decreases |handlers| - used, first
      {
        used, steps := ProcessEvents(handlers, used, st, steps);
        if at[Queue] != [] {
          return;
        }
        var moved;
        moved, steps := TransferInRun(st, steps);
        if !moved {
          return;
        }
        first := false;
      }
    }
  }
}
