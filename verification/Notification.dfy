/**
  Notifications (framework/src/fwk_notification.c): a fixed table of subscription records that move between a list of
  unused ones and one list for each notification of each module or element. A notification is sent by putting one event
  for every subscription to its source.
*/
module Notification {
  import opened FwkStatus
  import opened FwkEvent
  import opened Pool
  import FwkCore

  datatype Subscription = Subscription(source: Entity, target: Entity)

  datatype Notice = Notice(mod: nat, idx: nat)

  datatype Where = Unused | SubscribedTo(owner: Entity, idx: nat)

  type Records = map<Where, seq<Subscription>>

  /** The valid entities, and how many notifications each module emits. */
  datatype Config = Config(entities: set<Entity>, notices: map<nat, nat>)

  predicate IsNotice(c: Config, n: Notice) {
    n.mod in c.notices && n.idx < c.notices[n.mod]
  }

  predicate IsSource(n: Notice, source: Entity) {
    !source.NoEntity? && source.mod == n.mod
  }

  /** The list of a notification from a source; a sub-element uses the one of its element. */
  function ListOf(n: Notice, source: Entity): Where {
    SubscribedTo(Owner(source), n.idx)
  }

  ghost predicate Known(c: Config, lists: set<Where>) {
    && Unused in lists
    && (forall n, e :: IsNotice(c, n) && e in c.entities && IsSource(n, e) ==> ListOf(n, e) in lists)
  }

  /** No list holds a subscription twice, and each holds only subscriptions to sources that use it. */
  ghost predicate Proper(c: Config, records: Records) {
    && (forall p, i {:trigger records[p][i]} :: p in records && p != Unused && 0 <= i < |records[p]| ==>
          Owner(records[p][i].source) == p.owner && records[p][i].target in c.entities)
    && (forall p, i, j {:trigger records[p][i], records[p][j]} ::
          p in records && p != Unused && 0 <= i < j < |records[p]| ==>
          records[p][i] != records[p][j])
  }

  /** What both requests check first. */
  predicate Accepted(c: Config, n: Notice, s: Subscription) {
    IsNotice(c, n) && s.source in c.entities && s.target in c.entities && IsSource(n, s.source)
  }

  /** The status of a request and the records it leaves. */
  datatype Reply = Reply(records: Records, status: int)

  function Position(list: seq<Subscription>, s: Subscription): (k: nat)
    ensures k <= |list| && (k == |list| <==> s !in list)
    ensures k < |list| ==> list[k] == s
    ensures forall i :: 0 <= i < k ==> list[i] != s
  {
    if list == [] || list[0] == s then 0 else 1 + Position(list[1..], s)
  }

  /** `fwk_notification_subscribe`: the first unused record goes to the end of the list. */
  function Subscribing(c: Config, records: Records, n: Notice, s: Subscription, interrupted: bool): Reply
    requires Known(c, records.Keys)
  {
    if interrupted then
      Reply(records, E_HANDLER)
    else if !Accepted(c, n, s) then
      Reply(records, E_PARAM)
    else if s in records[ListOf(n, s.source)] then
      Reply(records, E_STATE)
    else if records[Unused] == [] then
      Reply(records, E_NOMEM)
    else
      Reply(Appended(Dropped(records, Unused, 0), ListOf(n, s.source), s), SUCCESS)
  }

  /** `fwk_notification_unsubscribe`: the record goes to the end of the unused ones. */
  function Unsubscribing(c: Config, records: Records, n: Notice, s: Subscription, interrupted: bool): Reply
    requires Known(c, records.Keys)
  {
    if interrupted then
      Reply(records, E_HANDLER)
    else if !Accepted(c, n, s) then
      Reply(records, E_PARAM)
    else if s !in records[ListOf(n, s.source)] then
      Reply(records, E_STATE)
    else
      var p := ListOf(n, s.source);
      Reply(Appended(Dropped(records, p, Position(records[p], s)), Unused, s), SUCCESS)
  }

  /** The notification exists, source and target are valid, and the source is of the module that emits it. */
  predicate Matching(c: Config, n: Notice, s: Subscription) {
    && n.mod in c.notices && n.idx < c.notices[n.mod] && s.source in c.entities && s.target in c.entities
    && s.source != NoEntity && s.source.mod == n.mod
  }

  /** What subscribing makes of the records: each status has its cause, and an unused record goes to one list. */
  predicate Subscribes(c: Config, records: Records, next: Records, n: Notice, s: Subscription, interrupted: bool,
      status: int)
    requires Known(c, records.Keys)
  {
    var p := SubscribedTo(Owner(s.source), n.idx);
    assert Matching(c, n, s) ==> p == ListOf(n, s.source) && IsNotice(c, n) && IsSource(n, s.source);
    if interrupted then status == E_HANDLER && next == records
    else if !Matching(c, n, s) then status == E_PARAM && next == records
    else if s in records[p] then status == E_STATE && next == records
    else if records[Unused] == [] then status == E_NOMEM && next == records
    else
      && status == SUCCESS && next.Keys == records.Keys
      && next[p] == records[p] + [s] && next[Unused] == records[Unused][1..]
      && forall q :: q in records && q != p && q != Unused ==> next[q] == records[q]
  }

  /** What unsubscribing makes of the records: the pair leaves its list, and its record is unused again. */
  predicate Unsubscribes(c: Config, records: Records, next: Records, n: Notice, s: Subscription, interrupted: bool,
      status: int)
    requires Known(c, records.Keys)
  {
    var p := SubscribedTo(Owner(s.source), n.idx);
    assert Matching(c, n, s) ==> p == ListOf(n, s.source) && IsNotice(c, n) && IsSource(n, s.source);
    if interrupted then status == E_HANDLER && next == records
    else if !Matching(c, n, s) then status == E_PARAM && next == records
    else if s !in records[p] then status == E_STATE && next == records
    else
      && status == SUCCESS && next.Keys == records.Keys && next[Unused] == records[Unused] + [s]
      && (forall q :: q in records && q != p && q != Unused ==> next[q] == records[q])
      && exists k :: 0 <= k < |records[p]| && records[p][k] == s && next[p] == records[p][..k] + records[p][k + 1..]
  }

  lemma SubscribeExact(c: Config, records: Records, n: Notice, s: Subscription, interrupted: bool)
    requires Known(c, records.Keys)
    ensures var out := Subscribing(c, records, n, s, interrupted);
      Subscribes(c, records, out.records, n, s, interrupted, out.status)
  {
    assert Accepted(c, n, s) <==> Matching(c, n, s);
    if Matching(c, n, s) && records[Unused] != [] {
      assert records[Unused][..0] + records[Unused][1..] == records[Unused][1..];
    }
  }

  lemma UnsubscribeExact(c: Config, records: Records, n: Notice, s: Subscription, interrupted: bool)
    requires Known(c, records.Keys)
    ensures var out := Unsubscribing(c, records, n, s, interrupted);
      Unsubscribes(c, records, out.records, n, s, interrupted, out.status)
  {
    assert Accepted(c, n, s) <==> Matching(c, n, s);
    var p := ListOf(n, s.source);
    if Matching(c, n, s) && s in records[p] {
      var k := Position(records[p], s);
      assert records[p][k] == s;
    }
  }

  lemma SubscribeProper(c: Config, records: Records, n: Notice, s: Subscription, interrupted: bool)
    requires Known(c, records.Keys) && Proper(c, records)
    ensures Proper(c, Subscribing(c, records, n, s, interrupted).records)
  {
  }

  lemma DroppedProper(c: Config, records: Records, p: Where, k: nat)
    requires Proper(c, records) && p in records && k < |records[p]|
    ensures Proper(c, Dropped(records, p, k))
    ensures p != Unused ==> records[p][k] !in Dropped(records, p, k)[p]
  {
  }

  lemma UnsubscribeProper(c: Config, records: Records, n: Notice, s: Subscription, interrupted: bool)
    requires Known(c, records.Keys) && Proper(c, records)
    ensures Proper(c, Unsubscribing(c, records, n, s, interrupted).records)
    ensures var out := Unsubscribing(c, records, n, s, interrupted);
      out.status == SUCCESS ==> s !in out.records[ListOf(n, s.source)]
  {
    var p := ListOf(n, s.source);
    if !interrupted && Accepted(c, n, s) && s in records[p] {
      DroppedProper(c, records, p, Position(records[p], s));
    }
  }

  /** Unsubscribing undoes a subscription: every list is as it was, and one record more is unused again. */
  lemma UnsubscribeUndoes(c: Config, records: Records, n: Notice, s: Subscription)
    requires Known(c, records.Keys) && Subscribing(c, records, n, s, false).status == SUCCESS
    ensures var mid := Subscribing(c, records, n, s, false).records;
      var out := Unsubscribing(c, mid, n, s, false);
      && out.status == SUCCESS
      && (forall p :: p in records && p != Unused ==> p in out.records && out.records[p] == records[p])
      && |out.records[Unused]| == |records[Unused]|
  {
    var p := ListOf(n, s.source);
    var mid := Subscribing(c, records, n, s, false).records;
    assert mid[p] == records[p] + [s];
    assert Position(mid[p], s) == |records[p]|;
    assert (records[p] + [s])[..|records[p]|] + (records[p] + [s])[|records[p]| + 1..] == records[p];
  }

  // -------------------------------------------------------------------------------------------------- sending

  /** The targets of the subscriptions to exactly this source, in order; a list may hold those of sub-elements too. */
  function Targets(list: seq<Subscription>, source: Entity): seq<Entity> {
    if list == [] then
      []
    else
      (if list[0].source == source then [list[0].target] else []) + Targets(list[1..], source)
  }

  /** Every subscriber to the source gets one event, and nobody else gets any. */
  lemma {:induction false} TargetsExact(list: seq<Subscription>, source: Entity)
    requires forall i, j :: 0 <= i < j < |list| ==> list[i] != list[j]
    ensures var ts := Targets(list, source);
      && (forall t :: t in ts <==> Subscription(source, t) in list)
      && (forall i, j :: 0 <= i < j < |ts| ==> ts[i] != ts[j])
  {
    if list == [] {
    } else {
      TargetsExact(list[1..], source);
      assert list == [list[0]] + list[1..];
      if list[0].source == source {
        assert list[0] == Subscription(source, list[0].target) && list[0] !in list[1..];
        NewFirst(list[0].target, Targets(list[1..], source));
      } else {
        assert Targets(list, source) == Targets(list[1..], source);
      }
    }
  }

  lemma {:induction false} NewFirst(t: Entity, ts: seq<Entity>)
    requires t !in ts && forall i, j :: 0 <= i < j < |ts| ==> ts[i] != ts[j]
    ensures forall i, j :: 0 <= i < j < |[t] + ts| ==> ([t] + ts)[i] != ([t] + ts)[j]
  {
  }

  datatype Sent = Sent(st: State, count: nat)

  /** The events put by `send_notifications` in order; each put leaves its cookie in the event for the next one. */
  function SendAll(st: State, e: Event, targets: seq<Entity>, interrupted: bool): Sent
    requires Free in st.at && Queue in st.at && Raised in st.at && Delayed(Owner(e.source)) in st.at
    decreases |targets|
  {
    if targets == [] then
      Sent(st, 0)
    else
      var out := PutEvent(st, e.(target := targets[0]), false, interrupted);
      var rest := SendAll(out.st, e.(target := targets[0], cookie := out.cookie), targets[1..], interrupted);
      Sent(rest.st, rest.count + if out.status == SUCCESS then 1 else 0)
  }

  /** One copy of the event for every target, numbered from `counter`. */
  function Copies(e: Event, targets: seq<Entity>, counter: nat): (r: seq<Event>)
    ensures |r| == |targets|
  {
    if targets == [] then
      []
    else
      [e.(target := targets[0], cookie := counter)] + Copies(e, targets[1..], (counter + 1) % TWO32)
  }

  lemma {:induction false} CopiesNext(e: Event, targets: seq<Entity>, k: nat, counter: nat)
    requires 0 < k <= |targets|
    ensures Copies(e, targets[..k], counter) ==
      [e.(target := targets[0], cookie := counter)] + Copies(e, targets[1..][..k - 1], (counter + 1) % TWO32)
  {
    assert targets[..k][1..] == targets[1..][..k - 1];
  }

  /** Numbering does not depend on the target and cookie that the event had. */
  lemma {:induction false} CopiesOf(e: Event, f: Event, targets: seq<Entity>, counter: nat)
    requires f == e.(target := f.target, cookie := f.cookie)
    ensures Copies(f, targets, counter) == Copies(e, targets, counter)
    decreases |targets|
  {
    if targets == [] {
    } else {
      CopiesOf(e, f, targets[1..], (counter + 1) % TWO32);
    }
  }

  lemma {:induction false} SendFirst(st: State, e: Event, s: Subscription, list: seq<Subscription>, interrupted: bool)
    requires Free in st.at && Queue in st.at && Raised in st.at && Delayed(Owner(e.source)) in st.at
    requires list != [] && list[0] == s && s.source == e.source
    ensures var out := PutEvent(st, e.(target := s.target), false, interrupted);
      var f := e.(target := s.target, cookie := out.cookie);
      var rest := SendAll(out.st, f, Targets(list[1..], e.source), interrupted);
      SendAll(st, e, Targets(list, e.source), interrupted) ==
        Sent(rest.st, rest.count + if out.status == SUCCESS then 1 else 0)
  {
    assert Targets(list, e.source)[1..] == Targets(list[1..], e.source);
  }

  /** Sending for the rest of the list from `k` on completes what `all` is. */
  ghost predicate StillToSend(all: Sent, st: State, e: Event, list: seq<Subscription>, k: nat, interrupted: bool,
      count: nat)
  {
    && k <= |list| && Free in st.at && Queue in st.at && Raised in st.at && Delayed(Owner(e.source)) in st.at
    && var rest := SendAll(st, e, Targets(list[k..], e.source), interrupted);
      all == Sent(rest.st, count + rest.count)
  }

  function Smaller(a: nat, b: nat): nat {
    if a <= b then a else b
  }

  /** The difference between two states: `n` slots were taken and `events` queued, and nothing else moved. */
  ghost predicate Queued(st: State, next: State, q: Place, n: nat, events: seq<Event>) {
    && st.at.Keys == next.at.Keys && Free in st.at && q in st.at && q != Free
    && n <= |st.at[Free]| && next.at[Free] == st.at[Free][n..]
    && next.at[q] == st.at[q] + events
    && (forall p :: p in st.at && p != Free && p != q ==> next.at[p] == st.at[p])
  }

  lemma QueuedNone(st: State, q: Place)
    requires Free in st.at && q in st.at && q != Free
    ensures Queued(st, st, q, 0, [])
  {
  }

  lemma {:induction false} QueuedMore(st: State, mid: State, next: State, q: Place, x: Event, n: nat,
      events: seq<Event>)
    requires Queued(st, mid, q, 1, [x]) && Queued(mid, next, q, n, events)
    ensures Queued(st, next, q, n + 1, [x] + events)
  {
    assert st.at[Free][1..][n..] == st.at[Free][n + 1..];
    assert st.at[q] + [x] + events == st.at[q] + ([x] + events);
  }

  lemma PutQueues(st: State, e: Event, interrupted: bool)
    requires Free in st.at && Queue in st.at && Raised in st.at && Delayed(Owner(e.source)) in st.at && !e.isDelayed
    requires st.at[Free] != []
    ensures var out := PutEvent(st, e, false, interrupted);
      && out.status == SUCCESS && out.cookie == st.counter && out.st.counter == (st.counter + 1) % TWO32
      && Queued(st, out.st, if interrupted then Raised else Queue, 1, [e.(cookie := st.counter)])
  {
    assert st.at[Free][..0] + st.at[Free][1..] == st.at[Free][1..];
  }

  /** As many targets as there are free slots get their event, in order and counted; the others get none. */
  lemma {:induction false} SendAllQueues(st: State, e: Event, targets: seq<Entity>, interrupted: bool)
    requires Free in st.at && Queue in st.at && Raised in st.at && Delayed(Owner(e.source)) in st.at && !e.isDelayed
    ensures var k := Smaller(|targets|, |st.at[Free]|);
      var out := SendAll(st, e, targets, interrupted);
      && out.count == k
      && Queued(st, out.st, if interrupted then Raised else Queue, k, Copies(e, targets[..k], st.counter))
    decreases |targets|
  {
    var q := if interrupted then Raised else Queue;
    if targets == [] || st.at[Free] == [] {
      SendNone(st, e, targets, interrupted);
      QueuedNone(st, q);
    } else {
      var first := e.(target := targets[0]);
      var out := PutEvent(st, first, false, interrupted);
      PutQueues(st, first, interrupted);
      var k := 1 + Smaller(|targets[1..]|, |out.st.at[Free]|);
      assert k == Smaller(|targets|, |st.at[Free]|);
      SendAllQueues(out.st, first.(cookie := out.cookie), targets[1..], interrupted);
      SendMoreQueues(st, e, targets, interrupted, k);
    }
  }

  lemma {:induction false} SendMoreQueues(st: State, e: Event, targets: seq<Entity>, interrupted: bool, k: nat)
    requires Free in st.at && Queue in st.at && Raised in st.at && Delayed(Owner(e.source)) in st.at && !e.isDelayed
    requires 0 < k <= |targets| && st.at[Free] != []
    requires var out := PutEvent(st, e.(target := targets[0]), false, interrupted);
      var f := e.(target := targets[0], cookie := out.cookie);
      var rest := SendAll(out.st, f, targets[1..], interrupted);
      && rest.count == k - 1
      && Queued(out.st, rest.st, if interrupted then Raised else Queue, k - 1,
                Copies(f, targets[1..][..k - 1], out.st.counter))
    ensures var out := SendAll(st, e, targets, interrupted);
      && out.count == k
      && Queued(st, out.st, if interrupted then Raised else Queue, k, Copies(e, targets[..k], st.counter))
  {
    var first := e.(target := targets[0]);
    var out := PutEvent(st, first, false, interrupted);
    PutQueues(st, first, interrupted);
    var f := first.(cookie := out.cookie);
    var rest := SendAll(out.st, f, targets[1..], interrupted);
    QueuedCopies(st, out.st, rest.st, if interrupted then Raised else Queue, e, f, targets, k);
  }

  lemma {:induction false} QueuedCopies(st: State, mid: State, next: State, q: Place, e: Event, f: Event,
      targets: seq<Entity>, k: nat)
    requires 0 < k <= |targets| && f == e.(target := targets[0], cookie := st.counter)
    requires Queued(st, mid, q, 1, [f]) && mid.counter == (st.counter + 1) % TWO32
    requires Queued(mid, next, q, k - 1, Copies(f, targets[1..][..k - 1], mid.counter))
    ensures Queued(st, next, q, k, Copies(e, targets[..k], st.counter))
  {
    var others := targets[1..][..k - 1];
    CopiesOf(e, f, others, mid.counter);
    CopiesNext(e, targets, k, st.counter);
    QueuedMore(st, mid, next, q, f, k - 1, Copies(e, others, mid.counter));
  }

  lemma {:induction false} SendNone(st: State, e: Event, targets: seq<Entity>, interrupted: bool)
    requires Free in st.at && Queue in st.at && Raised in st.at && Delayed(Owner(e.source)) in st.at && !e.isDelayed
    requires targets == [] || st.at[Free] == []
    ensures SendAll(st, e, targets, interrupted) == Sent(st, 0)
    decreases |targets|
  {
    if targets == [] {
    } else {
      SendNone(st, e.(target := targets[0]), targets[1..], interrupted);
    }
  }

  lemma {:induction false} CopiesAt(e: Event, targets: seq<Entity>, counter: nat, i: nat)
    requires i < |targets|
    ensures var x := Copies(e, targets, counter)[i];
      && x == e.(target := targets[i], cookie := x.cookie)
      && x.cookie == if i == 0 then counter else (Copies(e, targets, counter)[i - 1].cookie + 1) % TWO32
    decreases i
  {
    if i == 0 {
    } else {
      CopiesAt(e, targets[1..], (counter + 1) % TWO32, i - 1);
    }
  }

  /**
    The events that a notification from a source adds to a queue: each is a copy for a subscriber to exactly this
    source, with the next cookies; no subscriber gets two, and every one gets his if slots are left in the end.
  */
  ghost predicate Delivers(list: seq<Subscription>, e: Event, counter: nat, slots: nat, events: seq<Event>) {
    && |events| <= slots
    && (forall i :: 0 <= i < |events| ==>
          && events[i] == e.(target := events[i].target, cookie := events[i].cookie)
          && events[i].cookie == (if i == 0 then counter else (events[i - 1].cookie + 1) % TWO32)
          && Subscription(e.source, events[i].target) in list)
    && (forall i, j :: 0 <= i < j < |events| ==> events[i].target != events[j].target)
    && (|events| < slots ==>
          forall t :: Subscription(e.source, t) in list ==> exists i :: 0 <= i < |events| && events[i].target == t)
  }

  lemma {:induction false} SendReaches(st: State, e: Event, list: seq<Subscription>, interrupted: bool)
    requires Free in st.at && Queue in st.at && Raised in st.at && Delayed(Owner(e.source)) in st.at && !e.isDelayed
    requires forall i, j :: 0 <= i < j < |list| ==> list[i] != list[j]
    ensures var out := SendAll(st, e, Targets(list, e.source), interrupted);
      var q := if interrupted then Raised else Queue;
      && q in out.st.at && out.count <= |st.at[Free]| && |out.st.at[q]| == |st.at[q]| + out.count
      && out.st.at[q][..|st.at[q]|] == st.at[q]
      && Delivers(list, e, st.counter, |st.at[Free]|, out.st.at[q][|st.at[q]|..])
  {
    hide Targets, SendAll, Delivers, Copies;
    var ts, q := Targets(list, e.source), if interrupted then Raised else Queue;
    var k := Smaller(|ts|, |st.at[Free]|);
    SendAllQueues(st, e, ts, interrupted);
    var events := Copies(e, ts[..k], st.counter);
    CopiesInOrder(e, ts, st.counter, k);
    AllReached(list, e, ts, events, st.counter, |st.at[Free]|);
    assert SendAll(st, e, ts, interrupted).st.at[q][|st.at[q]|..] == events;
  }

  lemma {:induction false} CopiesInOrder(e: Event, ts: seq<Entity>, counter: nat, k: nat)
    requires k <= |ts|
    ensures AreCopies(e, ts, counter, Copies(e, ts[..k], counter))
  {
    var events := Copies(e, ts[..k], counter);
    forall i | 0 <= i < k
      ensures events[i] == e.(target := ts[i], cookie := events[i].cookie)
      ensures events[i].cookie == if i == 0 then counter else (events[i - 1].cookie + 1) % TWO32
    {
      CopiesAt(e, ts[..k], counter, i);
    }
  }

  /** The events are copies of `e` for the first targets, numbered from `counter`. */
  ghost predicate AreCopies(e: Event, ts: seq<Entity>, counter: nat, events: seq<Event>) {
    && |events| <= |ts|
    && forall i :: 0 <= i < |events| ==>
      && events[i] == e.(target := ts[i], cookie := events[i].cookie)
      && events[i].cookie == if i == 0 then counter else (events[i - 1].cookie + 1) % TWO32
  }

  lemma {:induction false} AllReached(list: seq<Subscription>, e: Event, ts: seq<Entity>, events: seq<Event>,
      counter: nat, slots: nat)
    requires |events| == Smaller(|ts|, slots) && AreCopies(e, ts, counter, events)
    requires ts == Targets(list, e.source) && forall i, j :: 0 <= i < j < |list| ==> list[i] != list[j]
    ensures Delivers(list, e, counter, slots, events)
  {
    TargetsExact(list, e.source);
    forall i | 0 <= i < |events|
      ensures Subscription(e.source, events[i].target) in list
    {
      assert ts[i] in ts;
    }
    if |events| < slots {
      forall t | Subscription(e.source, t) in list
        ensures exists i :: 0 <= i < |events| && events[i].target == t
      {
        assert t in ts;
        var i :| 0 <= i < |ts| && ts[i] == t;
        assert events[i].target == t;
      }
    }
  }

  /** The list of unused records and the lists of all notifications. */
  function Lists(c: Config): set<Where> {
    {Unused} +
    set e, i | e in c.entities && !e.NoEntity? && e.mod in c.notices && 0 <= i < c.notices[e.mod] ::
      SubscribedTo(Owner(e), i)
  }

  lemma ListsKnown(c: Config)
    ensures Known(c, Lists(c))
  {
    forall n, e | IsNotice(c, n) && e in c.entities && IsSource(n, e)
      ensures ListOf(n, e) in Lists(c)
    {
    }
  }

  /** The records with nothing subscribed. */
  ghost predicate NoneSubscribed(records: Records, unused: nat) {
    && Unused in records && |records[Unused]| == unused
    && (forall p :: p in records && p != Unused ==> records[p] == [])
  }

  class NotificationCtx {
    const config: Config
    const core: FwkCore.FwkCtx
    const table: array<Subscription>
    var at: map<Where, seq<nat>>
    /** The records in no list: the one being moved. */
    ghost var hands: set<nat>
    ghost var home: map<nat, Where>
    ghost var records: Records

    ghost predicate Valid()
      reads this, table
    {
      && Partition(table.Length, at, hands, home) && Holds(table[..], at, records)
      && Known(config, records.Keys) && Proper(config, records)
    }

    /** `fwk_notification_init`: all records are pushed to the list of unused ones. */
    constructor (config: Config, core: FwkCore.FwkCtx, capacity: nat)
      ensures Valid() && hands == {} && fresh(table) && this.config == config && this.core == core
      ensures NoneSubscribed(records, capacity)
    {
      hide Partition, From;
      this.config, this.core := config, core;
      table := new Subscription[capacity](_ => Subscription(NoEntity, NoEntity));
      at, records := map p | p in Lists(config) :: [], map p | p in Lists(config) :: [];
      hands, home := From(0, capacity), map[];
      new;
      ListsKnown(config);
      FreeAll();
    }

    method FreeAll()
      requires Valid() && hands == From(0, table.Length) && NoneSubscribed(records, 0)
      modifies this`at, this`hands, this`home, this`records
      ensures Valid() && hands == {} && NoneSubscribed(records, table.Length)
    {
      for i := 0 to table.Length
        invariant Valid() && hands == From(i, table.Length) && NoneSubscribed(records, i)
      {
        FromNext(i, table.Length);
        Link(Unused, i);
      }
    }

    method Unlink(p: Where, k: nat) returns (s: nat)
      requires Valid() && p in at && k < |at[p]|
      modifies this`at, this`hands, this`home, this`records
      ensures Valid() && s == old(at[p][k]) && s !in old(hands) && hands == old(hands) + {s}
      ensures records == Dropped(old(records), p, k)
    {
      s := at[p][k];
      DroppedPartition(table.Length, at, hands, home, p, k);
      DroppedHolds(table[..], at, records, p, k);
      DroppedProper(config, records, p, k);
      at := Dropped(at, p, k);
      hands, home, records := hands + {s}, home - {s}, Dropped(records, p, k);
    }

    method Link(p: Where, s: nat)
      requires Valid() && p in at && s in hands && Proper(config, Appended(records, p, table[s]))
      modifies this`at, this`hands, this`home, this`records
      ensures Valid() && hands == old(hands) - {s} && records == Appended(old(records), p, table[s])
    {
      AppendedPartition(table.Length, at, hands, home, p, s);
      AppendedHolds(table[..], at, records, p, s);
      at := Appended(at, p, s);
      hands, home, records := hands - {s}, home[s := p], Appended(records, p, table[s]);
    }

    method Write(s: nat, x: Subscription)
      requires Valid() && s in hands
      modifies table
      ensures Valid() && table[s] == x
    {
      table[s] := x;
    }

    /** `search_subscription`: the position of the subscription in the list, or the length. */
    method SearchSubscription(p: Where, s: Subscription) returns (k: nat)
      requires Valid() && p in at
      ensures k == Position(records[p], s)
    {
      k := 0;
      while k < |at[p]| && table[at[p][k]] != s
        invariant k <= |at[p]|
        invariant forall i :: 0 <= i < k ==> records[p][i] != s
      {
        k := k + 1;
      }
    }

    /** `fwk_notification_subscribe`. */
    method Subscribe(n: Notice, s: Subscription, interrupted: bool) returns (status: int)
      requires Valid() && hands == {}
      modifies this`at, this`hands, this`home, this`records, table
      ensures Valid() && hands == {}
      ensures Reply(records, status) == Subscribing(config, old(records), n, s, interrupted)
      ensures Subscribes(config, old(records), records, n, s, interrupted, status)
    {
      SubscribeExact(config, records, n, s, interrupted);
      hide Subscribes;
      if interrupted {
        return E_HANDLER;
      }
      if !Accepted(config, n, s) {
        return E_PARAM;
      }
      var p := ListOf(n, s.source);
      var k := SearchSubscription(p, s);
      if k < |at[p]| {
        return E_STATE;
      }
      if at[Unused] == [] {
        return E_NOMEM;
      }
      SubscribeProper(config, records, n, s, interrupted);
      PutBack({}, at[Unused][0]);
      var slot := Unlink(Unused, 0);
      Write(slot, s);
      Link(p, slot);
      status := SUCCESS;
    }

    /** `fwk_notification_unsubscribe`. */
    method Unsubscribe(n: Notice, s: Subscription, interrupted: bool) returns (status: int)
      requires Valid() && hands == {}
      modifies this`at, this`hands, this`home, this`records
      ensures Valid() && hands == {}
      ensures Reply(records, status) == Unsubscribing(config, old(records), n, s, interrupted)
      ensures Unsubscribes(config, old(records), records, n, s, interrupted, status)
    {
      UnsubscribeExact(config, records, n, s, interrupted);
      hide Unsubscribes;
      if interrupted {
        return E_HANDLER;
      }
      if !Accepted(config, n, s) {
        return E_PARAM;
      }
      var p := ListOf(n, s.source);
      var k := SearchSubscription(p, s);
      if k == |at[p]| {
        return E_STATE;
      }
      UnsubscribeProper(config, records, n, s, interrupted);
      PutBack({}, at[p][k]);
      var slot := Unlink(p, k);
      Link(Unused, slot);
      status := SUCCESS;
    }

    method RecordAt(p: Where, k: nat) returns (s: Subscription)
      requires Valid() && p in at && p != Unused && k < |at[p]|
      ensures |at[p]| == |records[p]| && s == records[p][k] && s.target in config.entities
    {
      s := table[at[p][k]];
    }

    /** Puts the event for subscription `k` of `list`, if it is to the event's source. */
    method SendOne(e: Event, s: Subscription, interrupted: bool, ghost list: seq<Subscription>, ghost k: nat)
        returns (event: Event, sent: nat)
      requires core.Valid() && e.source in core.entities && s.target in core.entities && k < |list| && list[k] == s
      modifies core`at, core`counter, core`hands, core`home, core`state, core.table
      ensures core.Valid() && core.hands == old(core.hands) && event.source == e.source
      ensures var rest := SendAll(core.state, event, Targets(list[k + 1..], e.source), interrupted);
        SendAll(old(core.state), e, Targets(list[k..], e.source), interrupted) == Sent(rest.st, sent + rest.count)
    {
      assert list[k..][1..] == list[k + 1..];
      if s.source != e.source {
        assert Targets(list[k..], e.source) == Targets(list[k + 1..], e.source);
        return e, 0;
      }
      SendFirst(core.state, e, s, list[k..], interrupted);
      var status, cookie := core.PutEvent(e.(target := s.target), false, interrupted);
      event, sent := e.(target := s.target, cookie := cookie), if status == SUCCESS then 1 else 0;
    }

    /** `send_notifications` for the list of a source. */
    method SendNotifications(p: Where, e: Event, interrupted: bool) returns (count: nat)
      requires Valid() && p in at && p != Unused && core.Valid() && core.entities == config.entities
      requires e.source in core.entities
      modifies core`at, core`counter, core`hands, core`home, core`state, core.table
      ensures core.Valid() && core.hands == old(core.hands)
      ensures Sent(core.state, count) ==
        SendAll(old(core.state), e.(isResponse := false, isNotification := true), Targets(records[p], e.source),
                interrupted)
    {
      ghost var list := records[p];
      var event := e.(isResponse := false, isNotification := true);
      ghost var all := SendAll(core.state, event, Targets(list, e.source), interrupted);
      count := 0;
      assert list[0..] == list;
      for k := 0 to |at[p]|
        invariant Valid() && core.Valid() && core.hands == old(core.hands) && event.source == e.source
        invariant StillToSend(all, core.state, event, list, k, interrupted, count)
      {
        event, count := SendNext(p, event, k, interrupted, count, all);
      }
    }

    /** One round of the loop over the list. */
    method SendNext(p: Where, e: Event, k: nat, interrupted: bool, count: nat, ghost all: Sent)
        returns (event: Event, next: nat)
      requires Valid() && p in at && p != Unused && k < |at[p]| && core.Valid() && core.entities == config.entities
      requires e.source in core.entities && StillToSend(all, core.state, e, records[p], k, interrupted, count)
      modifies core`at, core`counter, core`hands, core`home, core`state, core.table
      ensures core.Valid() && core.hands == old(core.hands) && event.source == e.source
      ensures k < |records[p]| && StillToSend(all, core.state, event, records[p], k + 1, interrupted, next)
    {
      var s := RecordAt(p, k);
      var sent;
      event, sent := SendOne(e, s, interrupted, records[p], k);
      next := count + sent;
    }

    /** The event, sent to all subscribers to the notification of its source. */
    ghost predicate SentTo(st: State, next: State, e: Event, n: Notice, interrupted: bool, count: nat)
      reads this
    {
      var p, q := SubscribedTo(Owner(e.source), n.idx), if interrupted then Raised else Queue;
      && p in records && Free in st.at && q in st.at && q in next.at
      && |next.at[q]| == |st.at[q]| + count && next.at[q][..|st.at[q]|] == st.at[q]
      && Delivers(records[p], e, st.counter, |st.at[Free]|, next.at[q][|st.at[q]|..])
    }

    /** `send_notifications` for a source that has subscribers' lists. */
    method SendTo(n: Notice, e: Event, interrupted: bool) returns (count: nat)
      requires Valid() && core.Valid() && core.entities == config.entities
      requires e.source in core.entities && IsNotice(config, n) && IsSource(n, e.source)
      modifies core`at, core`counter, core`hands, core`home, core`state, core.table
      ensures core.Valid() && core.hands == old(core.hands)
      ensures Sent(core.state, count) ==
        SendAll(old(core.state), e.(isResponse := false, isNotification := true),
                Targets(records[ListOf(n, e.source)], e.source), interrupted)
      ensures !e.isDelayed ==>
        SentTo(old(core.state), core.state, e.(isResponse := false, isNotification := true), n, interrupted, count)
    {
      hide Delivers, SendAll, Targets;
      if !e.isDelayed {
        SendReaches(core.state, e.(isResponse := false, isNotification := true), records[ListOf(n, e.source)],
                    interrupted);
      }
      count := SendNotifications(ListOf(n, e.source), e, interrupted);
    }

    /** `fwk_notification_notify`: an event without a valid source gets the target of the event being processed. */
    method Notify(n: Notice, e: Event, interrupted: bool) returns (status: int, count: nat)
      requires Valid() && hands == {} && core.Settled() && core.entities == config.entities
      requires interrupted || core.current.Some? || e.source in core.entities
      modifies core`at, core`counter, core`hands, core`home, core`state, core.table
      ensures core.Settled()
      ensures var source :=
          if e.source in core.entities || interrupted then e.source else old(core.state).current.value.target;
        if source !in core.entities || !IsNotice(config, n) || !IsSource(n, source) then
          status == E_PARAM && core.state == old(core.state) && count == 0
        else
          && status == SUCCESS
          && Sent(core.state, count) ==
               SendAll(old(core.state), e.(source := source, isResponse := false, isNotification := true),
                       Targets(records[ListOf(n, source)], source), interrupted)
      ensures status == SUCCESS && !e.isDelayed ==>
        var source :=
          if e.source in core.entities || interrupted then e.source else old(core.state).current.value.target;
        SentTo(old(core.state), core.state, e.(source := source, isResponse := false, isNotification := true), n,
               interrupted, count)
    {
      hide SendAll, Targets, SentTo;
      var source := e.source;
      count := 0;
      if interrupted {
        if source !in core.entities {
          return E_PARAM, count;
        }
      } else if core.current.Some? && source !in core.entities {
        source := core.table[core.current.value].target;
      }
      if !IsNotice(config, n) || !IsSource(n, source) {
        return E_PARAM, count;
      }
      count := SendTo(n, e.(source := source), interrupted);
      status := SUCCESS;
    }
  }
}
