/**
  Two runs after which events share a cookie: one with light requests, and one in which the counter of cookies wraps.
  They show that the conditions of the theorem about unique cookies are needed.
*/
module FwkCookieRuns {
  import opened FwkStatus
  import opened FwkEvent
  import opened FwkCookies

  /** An event from `target` to itself, which may ask for a response. */
  function Sample(target: Entity, asks: bool): Event {
    ZERO.(source := target, target := target, responseRequested := asks)
  }

  function Delaying(asks: bool): Step {
    Process(Handler([], asks, [], []))
  }

  lemma FirstStep(st: State, s: Step, steps: seq<Step>, end: State)
    requires st.Known() && Enabled(st, s) && Reaches(Next(st, s), steps, end)
    ensures Reaches(st, [s] + steps, end)
  {
    assert ([s] + steps)[1..] == steps;
  }

  ghost predicate Idle(st: State, target: Entity) {
    st.Known() && st.current == None && st.entities == {target}
  }

  lemma Dropped<T>(s: seq<T>)
    requires s != []
    ensures s[..0] + s[1..] == s[1..]
  {
  }

  /** Putting a sample with a free slot queues it, a standard one with the counter as its cookie. */
  lemma PutSample(st: State, target: Entity, asks: bool, light: bool)
    requires Idle(st, target) && st.at[Free] != [] && (light ==> st.at[Free][0] == ZERO)
    ensures var put := Outside(Action(Sample(target, asks), light, false));
      var next := Next(st, put);
      && Enabled(st, put) && Idle(next, target)
      && next.at[Queue] == st.at[Queue] + [Sample(target, asks).(cookie := if light then 0 else st.counter)]
      && next.at[Free] == st.at[Free][1..]
      && next.at[Delayed(Owner(target))] == st.at[Delayed(Owner(target))]
      && next.puts == st.puts + (if light then 0 else 1)
      && next.counter == if light then st.counter else (st.counter + 1) % TWO32
  {
    PutKnown(st, Sample(target, asks), light, false);
    Dropped(st.at[Free]);
  }

  /** Processing the first event, whose handler delays its response if it is asked for one. */
  lemma ProcessSample(st: State, target: Entity, asks: bool)
    requires Idle(st, target) && st.at[Queue] != [] && st.at[Queue][0].target == target
    requires st.at[Queue][0].responseRequested == asks && (asks ==> st.at[Free] != [])
    ensures var e := st.at[Queue][0];
      var p, next := Delayed(Owner(target)), Next(st, Delaying(asks));
      && Enabled(st, Delaying(asks)) && Idle(next, target) && next.puts == st.puts && next.counter == st.counter
      && next.at[Queue] == st.at[Queue][1..]
      && next.at[Free] == (if asks then st.at[Free][1..] else st.at[Free]) + [e]
      && next.at[p] == st.at[p] + if asks then [Response(e, Delaying(asks).handler)] else []
  {
    ProcessNextKnown(st, Delaying(asks).handler);
    Dropped(st.at[Queue]);
    if asks {
      Dropped(st.at[Free]);
    }
  }

  // -------------------------------------------------------------------------------------------- light requests

  lemma Twins(a: State, target: Entity, r: Event)
    requires Delayed(Owner(target)) in a.at && a.at[Delayed(Owner(target))] == [r, r]
    ensures !Distinct(a.at)
  {
    assert Clash(a.at, Delayed(Owner(target)), 0, Delayed(Owner(target)), 1);
  }

  lemma {:induction false} TwoLightPuts(target: Entity) returns (mid: State, end: State)
    requires target != NoEntity
    ensures var st, put := Initial({target}, 4), Outside(Action(Sample(target, true), true, false));
      && Idle(st, target) && Enabled(st, put) && mid == Next(st, put)
      && Idle(mid, target) && Enabled(mid, put) && end == Next(mid, put)
      && Idle(end, target) && end.puts == 0 && |end.at[Free]| == 2
      && end.at[Queue] == [Sample(target, true), Sample(target, true)] && end.at[Delayed(Owner(target))] == []
  {
    var st, put := Initial({target}, 4), Outside(Action(Sample(target, true), true, false));
    InitialKnown({target}, 4);
    assert Delayed(Owner(target)) in Places({target});
    PutSample(st, target, true, true);
    mid := Next(st, put);
    PutSample(mid, target, true, true);
    end := Next(mid, put);
  }

  lemma TwoDelayed(st: State, target: Entity) returns (steps: seq<Step>, end: State)
    requires Idle(st, target) && |st.at[Free]| == 2 && st.at[Delayed(Owner(target))] == []
    requires st.at[Queue] == [Sample(target, true), Sample(target, true)]
    ensures Reaches(st, steps, end) && end.puts == st.puts && !Distinct(end.at)
  {
    var h := Delaying(true);
    var next := Next(st, h);
    ProcessSample(st, target, true);
    ProcessSample(next, target, true);
    end := Next(next, h);
    Twins(end, target, Response(Sample(target, true), h.handler));
    steps := [h] + ([h] + []);
    FirstStep(next, h, [], end);
    FirstStep(st, h, [h] + [], end);
  }

  /** Two light requests in zeroed slots, both delayed: the responses share the stale cookie 0. */
  lemma LightEventsShareCookies(target: Entity) returns (steps: seq<Step>, end: State)
    requires target != NoEntity
    ensures Reaches(Initial({target}, 4), steps, end) && end.puts == 0 && !Distinct(end.at)
  {
    var put := Outside(Action(Sample(target, true), true, false));
    var mid, st := TwoLightPuts(target);
    steps, end := TwoDelayed(st, target);
    FirstStep(mid, put, steps, end);
    FirstStep(Initial({target}, 4), put, [put] + steps, end);
    steps := [put] + ([put] + steps);
  }

  // ------------------------------------------------------------------------------------------ the counter wraps

  function Request(target: Entity, asks: bool): Step {
    Outside(Action(Sample(target, asks), false, false))
  }

  /** Between two rounds: one slot free, nothing queued, and one delayed response with the cookie 0. */
  ghost predicate Waiting(st: State, target: Entity) {
    && Idle(st, target) && st.counter == st.puts % TWO32
    && st.at[Queue] == [] && |st.at[Free]| == 1
    && |st.at[Delayed(Owner(target))]| == 1 && st.at[Delayed(Owner(target))][0].cookie == 0
  }

  /** A step and the run after it in which every light event asks for no response. */
  lemma TameFirst(s: Step, steps: seq<Step>)
    requires TameStep(s) && TameRun(steps)
    ensures TameRun([s] + steps)
  {
    assert ([s] + steps)[1..] == steps;
  }

  /** The run after a standard put and the processing of its event, from the run after it. */
  lemma TwoSteps(st: State, target: Entity, asks: bool, steps: seq<Step>, end: State)
    requires Idle(st, target) && Enabled(st, Request(target, asks))
    requires var mid := Next(st, Request(target, asks));
      && Idle(mid, target) && Enabled(mid, Delaying(asks)) && Reaches(Next(mid, Delaying(asks)), steps, end)
    requires TameRun(steps)
    ensures var all := [Request(target, asks)] + ([Delaying(asks)] + steps); Reaches(st, all, end) && TameRun(all)
  {
    FirstStep(Next(st, Request(target, asks)), Delaying(asks), steps, end);
    FirstStep(st, Request(target, asks), [Delaying(asks)] + steps, end);
    TameFirst(Delaying(asks), steps);
    TameFirst(Request(target, asks), [Delaying(asks)] + steps);
  }

  /** One standard event is put and processed. */
  lemma Round(st: State, target: Entity)
    requires Waiting(st, target)
    ensures Enabled(st, Request(target, false))
    ensures var mid := Next(st, Request(target, false));
      && Idle(mid, target) && Enabled(mid, Delaying(false))
      && Waiting(Next(mid, Delaying(false)), target) && Next(mid, Delaying(false)).puts == st.puts + 1
  {
    PutSample(st, target, false, false);
    var mid := Next(st, Request(target, false));
    ProcessSample(mid, target, false);
    Wrapped(st.puts);
  }

  lemma Wrapped(n: nat)
    ensures (n % TWO32 + 1) % TWO32 == (n + 1) % TWO32
  {
  }

  /** One more request when the counter is back at 0. */
  lemma LastRequest(st: State, target: Entity)
    requires Waiting(st, target) && st.puts % TWO32 == 0
    ensures Enabled(st, Request(target, true))
    ensures var end := Next(st, Request(target, true)); end.puts == st.puts + 1 && !Distinct(end.at)
  {
    PutSample(st, target, true, false);
    assert Clash(Next(st, Request(target, true)).at, Delayed(Owner(target)), 0, Queue, 0);
  }

  /** `n` rounds, and then one more request. */
  lemma {:induction false} Rounds(st: State, target: Entity, n: nat) returns (steps: seq<Step>, end: State)
    requires Waiting(st, target) && (st.puts + n) % TWO32 == 0
    ensures Reaches(st, steps, end) && TameRun(steps) && end.puts == st.puts + n + 1 && !Distinct(end.at)
    decreases n
  {
    if n == 0 {
      LastRequest(st, target);
      end := Next(st, Request(target, true));
      FirstStep(st, Request(target, true), [], end);
      TameFirst(Request(target, true), []);
      steps := [Request(target, true)] + [];
    } else {
      Round(st, target);
      var next := Next(Next(st, Request(target, false)), Delaying(false));
      steps, end := Rounds(next, target, n - 1);
      TwoSteps(st, target, false, steps, end);
      steps := [Request(target, false)] + ([Delaying(false)] + steps);
    }
  }

  /** The first request, whose response is delayed. */
  lemma FirstDelayed(target: Entity)
    requires target != NoEntity
    ensures var st := Initial({target}, 2); Idle(st, target) && Enabled(st, Request(target, true))
    ensures var mid := Next(Initial({target}, 2), Request(target, true));
      && Idle(mid, target) && Enabled(mid, Delaying(true))
      && Waiting(Next(mid, Delaying(true)), target) && Next(mid, Delaying(true)).puts == 1
  {
    var st := Initial({target}, 2);
    InitialKnown({target}, 2);
    assert Delayed(Owner(target)) in Places({target});
    PutSample(st, target, true, false);
    ProcessSample(Next(st, Request(target, true)), target, true);
  }

  /**
    A run of standard events: after 2^32 puts the next request carries the cookie of a response delayed since the
    first.
  */
  lemma WrapSharesCookie(target: Entity) returns (steps: seq<Step>, end: State)
    requires target != NoEntity
    ensures Reaches(Initial({target}, 2), steps, end) && TameRun(steps)
    ensures end.puts == TWO32 + 1 && !Distinct(end.at)
  {
    var st := Initial({target}, 2);
    FirstDelayed(target);
    steps, end := Rounds(Next(Next(st, Request(target, true)), Delaying(true)), target, TWO32 - 1);
    TwoSteps(st, target, true, steps, end);
    steps := [Request(target, true)] + ([Delaying(true)] + steps);
  }
}
