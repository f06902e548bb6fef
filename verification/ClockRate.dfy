/**
  Rate propagation: a clock whose rate changed hands its rate to its children, which hand theirs to their own,
  one event each. Every descendant is updated exactly once, with the composition of the drivers above it, unless a
  driver that fails cuts it off.
*/
module ClockRate {
  import opened FwkStatus
  import opened ClockTree
  import opened ClockTreeInvariant

  /** A rate event for a clock, and equally a driver call that gives the clock its input rate. */
  datatype Rate = Rate(clock: nat, rate: nat)

  /** `update_input_rate`: the status, and the output rate when it succeeds. */
  type RateDriver = Rate -> (int, nat)

  /** The forest, the distance of every clock to its root, and which drivers follow their input rate. */
  datatype Tree = Tree(f: Forest, d: seq<nat>, top: nat, follows: seq<bool>, drv: RateDriver)

  datatype RateState = RateState(queue: seq<Rate>, calls: seq<Rate>)

  ghost predicate WellBuilt(t: Tree) {
    Depths(t.f, t.d) && |t.follows| == |t.f| && forall i :: 0 <= i < |t.d| ==> t.d[i] <= t.top
  }

  /** Clocks one level below `c`, in the order of the children list of `c`. */
  ghost predicate AreKids(t: Tree, c: nat, kids: seq<nat>) {
    && c < |t.f| == |t.d|
    && (forall i :: 0 <= i < |kids| ==>
          kids[i] < |t.f| && t.f[kids[i]] == Some(c) && t.d[kids[i]] == t.d[c] + 1)
    && forall i, j :: 0 <= i < j < |kids| ==> kids[i] < kids[j]
  }

  ghost function Children(t: Tree, c: nat): (r: seq<nat>) {
    ChildrenBelow(t.f, c, |t.f|)
  }

  // ---------- the handler ----------

  /** The handler over the children left to do: the new state and the status it returns. */
  ghost function ProcessKids(t: Tree, s: RateState, kids: seq<nat>, rate: nat): (RateState, int)
    requires forall i :: 0 <= i < |kids| ==> kids[i] < |t.follows|
    decreases |kids|
  {
    if kids == [] then (s, SUCCESS)
    else if !t.follows[kids[0]] then ProcessKids(t, s, kids[1..], rate)
    else
      var call := Rate(kids[0], rate);
      var s1 := s.(calls := s.calls + [call]);
      if t.drv(call).0 != SUCCESS then (s1, t.drv(call).0)
      else ProcessKids(t, s1.(queue := s1.queue + [Rate(kids[0], t.drv(call).1)]), kids[1..], rate)
  }

  /** The calls made end at the first driver that fails, whose status is returned. */
  ghost predicate EndsAtFailure(t: Tree, before: seq<Rate>, after: seq<Rate>, rate: nat, status: int) {
    && before <= after
    && (forall i :: |before| <= i < |after| ==> after[i].rate == rate)
    && (forall i :: |before| <= i < |after| - 1 ==> t.drv(after[i]).0 == SUCCESS)
    && (status == SUCCESS <==> forall i :: |before| <= i < |after| ==> t.drv(after[i]).0 == SUCCESS)
    && (status != SUCCESS ==> |after| > |before| && status == t.drv(after[|after| - 1]).0)
  }

  lemma {:induction false} ProcessKidsEnds(t: Tree, s: RateState, kids: seq<nat>, rate: nat)
    requires forall i :: 0 <= i < |kids| ==> kids[i] < |t.follows|
    ensures var r := ProcessKids(t, s, kids, rate);
      EndsAtFailure(t, s.calls, r.0.calls, rate, r.1)
    decreases |kids|
  {
    if kids == [] {
    } else if !t.follows[kids[0]] {
      ProcessKidsEnds(t, s, kids[1..], rate);
    } else {
      var call := Rate(kids[0], rate);
      var s1 := s.(calls := s.calls + [call]);
      assert s1.calls[|s.calls|] == call;
      if t.drv(call).0 == SUCCESS {
        var s2 := s1.(queue := s1.queue + [Rate(kids[0], t.drv(call).1)]);
        ProcessKidsEnds(t, s2, kids[1..], rate);
        assert ProcessKids(t, s, kids, rate).0.calls[|s.calls|] == call;
      }
    }
  }

  // ---------- what a rate event causes ----------

  /** All driver calls a rate event causes, directly and through the events it sends. */
  ghost function Below(t: Tree, c: nat, rate: nat): multiset<Rate>
    requires WellBuilt(t) && c < |t.f|
    decreases t.top - t.d[c], 1, 0
  {
    ChildrenDeeper(t, c);
    BelowKids(t, c, Children(t, c), rate)
  }

  ghost function BelowKids(t: Tree, c: nat, kids: seq<nat>, rate: nat): multiset<Rate>
    requires WellBuilt(t) && AreKids(t, c, kids)
    decreases t.top - t.d[c], 0, |kids|
  {
    if kids == [] then
      multiset{}
    else if !t.follows[kids[0]] then
      BelowKids(t, c, kids[1..], rate)
    else
      var call := Rate(kids[0], rate);
      if t.drv(call).0 != SUCCESS then
        multiset{call}
      else
        multiset{call} + Below(t, kids[0], t.drv(call).1) + BelowKids(t, c, kids[1..], rate)
  }

  lemma ChildrenDeeper(t: Tree, c: nat)
    requires WellBuilt(t) && c < |t.f|
    ensures AreKids(t, c, Children(t, c))
  {
    ChildrenListed(t.f, c, |t.f|);
    var kids := Children(t, c);
    forall i | 0 <= i < |kids|
      ensures kids[i] < |t.f| && t.f[kids[i]] == Some(c) && t.d[kids[i]] == t.d[c] + 1
    {
      assert kids[i] in kids;
      assert t.d[kids[i]] == t.d[t.f[kids[i]].value] + 1;
    }
  }

  /** The driver calls still to come for the events in a queue. */
  ghost function Pending(t: Tree, q: seq<Rate>): multiset<Rate>
    requires WellBuilt(t) && forall i :: 0 <= i < |q| ==> q[i].clock < |t.f|
  {
    if q == [] then multiset{} else Below(t, q[0].clock, q[0].rate) + Pending(t, q[1..])
  }

  lemma {:induction false} PendingAppend(t: Tree, q: seq<Rate>, e: Rate)
    requires WellBuilt(t) && e.clock < |t.f| && forall i :: 0 <= i < |q| ==> q[i].clock < |t.f|
    ensures Pending(t, q + [e]) == Pending(t, q) + Below(t, e.clock, e.rate)
  {
    if q == [] {
      assert (q + [e])[1..] == [];
    } else {
      assert (q + [e])[1..] == q[1..] + [e];
      PendingAppend(t, q[1..], e);
    }
  }

  ghost predicate Clocks(t: Tree, s: RateState) {
    forall i :: 0 <= i < |s.queue| ==> s.queue[i].clock < |t.f|
  }

  /** The calls made and the calls still to come. */
  ghost function Account(t: Tree, s: RateState): multiset<Rate>
    requires WellBuilt(t) && Clocks(t, s)
  {
    multiset(s.calls) + Pending(t, s.queue)
  }

  lemma AccountCalled(t: Tree, s: RateState, call: Rate)
    requires WellBuilt(t) && Clocks(t, s)
    ensures Account(t, s.(calls := s.calls + [call])) == Account(t, s) + multiset{call}
  {
  }

  lemma AccountSent(t: Tree, s: RateState, e: Rate)
    requires WellBuilt(t) && Clocks(t, s) && e.clock < |t.f|
    ensures Clocks(t, s.(queue := s.queue + [e]))
    ensures Account(t, s.(queue := s.queue + [e])) == Account(t, s) + Below(t, e.clock, e.rate)
  {
    PendingAppend(t, s.queue, e);
  }

  lemma AccountFirst(t: Tree, c: nat, rate: nat)
    requires WellBuilt(t) && c < |t.f|
    ensures Account(t, RateState([Rate(c, rate)], [])) == Below(t, c, rate)
  {
    assert [] + [Rate(c, rate)] == [Rate(c, rate)];
    PendingAppend(t, [], Rate(c, rate));
  }

  lemma Regroup(a: multiset<Rate>, b: multiset<Rate>, c: multiset<Rate>, d: multiset<Rate>)
    ensures a + b + c + d == a + (b + c + d)
  {
  }

  /** Conservation: what a handler does, plus what its events will cause, is what its own event promised. */
  lemma {:induction false} ProcessKidsConserves(t: Tree, s: RateState, c: nat, kids: seq<nat>, rate: nat)
    requires WellBuilt(t) && Clocks(t, s) && AreKids(t, c, kids)
    ensures var r := ProcessKids(t, s, kids, rate).0;
      Clocks(t, r) && Account(t, r) == Account(t, s) + BelowKids(t, c, kids, rate)
    decreases |kids|
  {
    if kids == [] {
    } else if !t.follows[kids[0]] {
      ProcessKidsConserves(t, s, c, kids[1..], rate);
    } else {
      var call := Rate(kids[0], rate);
      var s1 := s.(calls := s.calls + [call]);
      AccountCalled(t, s, call);
      if t.drv(call).0 == SUCCESS {
        var e := Rate(kids[0], t.drv(call).1);
        AccountSent(t, s1, e);
        ProcessKidsConserves(t, s1.(queue := s1.queue + [e]), c, kids[1..], rate);
        Regroup(Account(t, s), multiset{call}, Below(t, e.clock, e.rate), BelowKids(t, c, kids[1..], rate));
      }
    }
  }

  /** One event off the queue and handled. */
  ghost function Handle(t: Tree, s: RateState): RateState
    requires WellBuilt(t) && Clocks(t, s) && s.queue != []
  {
    ChildrenDeeper(t, s.queue[0].clock);
    ProcessKids(t, s.(queue := s.queue[1..]), Children(t, s.queue[0].clock), s.queue[0].rate).0
  }

  lemma HandleConserves(t: Tree, s: RateState)
    requires WellBuilt(t) && Clocks(t, s) && s.queue != []
    ensures Clocks(t, Handle(t, s))
    ensures Account(t, Handle(t, s)) == Account(t, s)
  {
    var e := s.queue[0];
    ChildrenDeeper(t, e.clock);
    ProcessKidsConserves(t, s.(queue := s.queue[1..]), e.clock, Children(t, e.clock), e.rate);
  }

  // ---------- exactly once, with the composed rate ----------

  predicate Accepts(t: Tree, k: nat, rate: nat) {
    t.drv(Rate(k, rate)).0 == SUCCESS
  }

  /** No driver of an earlier child of `c` fails, so that child `x` of `c` gets its turn. */
  ghost predicate HasTurn(t: Tree, c: nat, rate: nat, x: nat)
    requires WellBuilt(t)
  {
    forall k: nat :: k < |t.f| && k < x && t.f[k] == Some(c) && t.follows[k] ==> Accepts(t, k, rate)
  }

  /**
    The call for `x` is made when `c` hands out `rate`: every clock from `x` up to `c` follows its input rate and has
    its turn, and the drivers between them accept their rates.
  */
  ghost predicate Reached(t: Tree, c: nat, rate: nat, x: nat)
    requires WellBuilt(t) && x < |t.f|
    decreases t.d[x], 0
  {
    && t.follows[x] && t.f[x].Some?
    && var p := t.f[x].value;
      assert t.d[x] == t.d[p] + 1;
      if p == c then
        HasTurn(t, c, rate, x)
      else
        && Reached(t, c, rate, p)
        && var in_ := InputRate(t, c, rate, p);
          Accepts(t, p, in_) && HasTurn(t, p, t.drv(Rate(p, in_)).1, x)
  }

  /** The rate `x` receives when `c` hands out `rate`: the drivers on the way applied from the top down. */
  ghost function InputRate(t: Tree, c: nat, rate: nat, x: nat): nat
    requires WellBuilt(t) && x < |t.f| && Reached(t, c, rate, x)
    decreases t.d[x], 1
  {
    var p := t.f[x].value;
    assert t.d[x] == t.d[p] + 1;
    if p == c then rate else t.drv(Rate(p, InputRate(t, c, rate, p))).1
  }

  lemma {:induction false} ReachedDeeper(t: Tree, c: nat, rate: nat, x: nat)
    requires WellBuilt(t) && c < |t.f| && x < |t.f| && Reached(t, c, rate, x)
    ensures t.d[c] < t.d[x] && ChainOf(t.f, t.d, x)[t.d[x] - t.d[c]] == c
    decreases t.d[x]
  {
    var p := t.f[x].value;
    assert t.d[x] == t.d[p] + 1;
    if p != c {
      ReachedDeeper(t, c, rate, p);
    }
  }

  /** The rate that child `k` hands on. */
  function Out(t: Tree, k: nat, rate: nat): nat {
    t.drv(Rate(k, rate)).1
  }

  /** Child `k` is on the way to `x`. */
  ghost predicate OnWay(t: Tree, k: nat, rate: nat, x: nat)
    requires WellBuilt(t) && x < |t.f| && k < |t.f|
  {
    t.follows[k] && (x == k || (Accepts(t, k, rate) && Reached(t, k, Out(t, k, rate), x)))
  }

  /** The rate that arrives at `x` by way of child `k`. */
  ghost function RateBy(t: Tree, k: nat, rate: nat, x: nat): nat
    requires WellBuilt(t) && x < |t.f| && k < |t.f| && OnWay(t, k, rate, x)
  {
    if x == k then rate else InputRate(t, k, Out(t, k, rate), x)
  }

  /** The child of `c` on the way to `x`. */
  lemma {:induction false} FirstOnTheWay(t: Tree, c: nat, rate: nat, x: nat) returns (k: nat)
    requires WellBuilt(t) && c < |t.f| && x < |t.f| && Reached(t, c, rate, x)
    ensures k < |t.f| && t.f[k] == Some(c) && HasTurn(t, c, rate, k)
    ensures OnWay(t, k, rate, x) && InputRate(t, c, rate, x) == RateBy(t, k, rate, x)
    decreases t.d[x]
  {
    var p := t.f[x].value;
    assert t.d[x] == t.d[p] + 1;
    if p == c {
      k := x;
    } else {
      k := FirstOnTheWay(t, c, rate, p);
      ReachedDeeper(t, c, rate, p);
      assert t.d[k] == t.d[c] + 1;
      assert Reached(t, k, Out(t, k, rate), x);
    }
  }

  lemma {:induction false} ReachedThrough(t: Tree, c: nat, rate: nat, k: nat, x: nat)
    requires WellBuilt(t) && c < |t.f| && k < |t.f| && x < |t.f|
    requires t.f[k] == Some(c) && HasTurn(t, c, rate, k) && OnWay(t, k, rate, x)
    ensures Reached(t, c, rate, x) && InputRate(t, c, rate, x) == RateBy(t, k, rate, x)
    decreases t.d[x]
  {
    assert t.d[k] == t.d[c] + 1;
    if x != k {
      var p := t.f[x].value;
      assert t.d[x] == t.d[p] + 1;
      ReachedDeeper(t, k, Out(t, k, rate), x);
      ReachedThrough(t, c, rate, k, p);
    }
  }

  /** The number of calls for `x` with rate `y` that come from the children in `kids`, up to the first that fails. */
  ghost function Expected(t: Tree, kids: seq<nat>, rate: nat, x: nat, y: nat): nat
    requires WellBuilt(t) && x < |t.f| && forall i :: 0 <= i < |kids| ==> kids[i] < |t.f|
    decreases |kids|
  {
    if kids == [] then
      0
    else
      ExpectedBy(t, kids[0], rate, x, y) +
      if t.follows[kids[0]] && !Accepts(t, kids[0], rate) then 0 else Expected(t, kids[1..], rate, x, y)
  }

  ghost function ExpectedBy(t: Tree, k: nat, rate: nat, x: nat, y: nat): nat
    requires WellBuilt(t) && x < |t.f| && k < |t.f|
  {
    if OnWay(t, k, rate, x) && y == RateBy(t, k, rate, x) then 1 else 0
  }

  lemma {:induction false} BelowKidsExpected(t: Tree, c: nat, kids: seq<nat>, rate: nat, x: nat, y: nat)
    requires WellBuilt(t) && x < |t.f| && AreKids(t, c, kids)
    ensures BelowKids(t, c, kids, rate)[Rate(x, y)] == Expected(t, kids, rate, x, y)
    decreases t.top - t.d[c], 0, |kids|
  {
    hide Below, HasTurn;
    if kids == [] {
    } else {
      var k := kids[0];
      if t.follows[k] && Accepts(t, k, rate) {
        CalledOnce(t, k, Out(t, k, rate), x, y);
        if x == k && Reached(t, k, Out(t, k, rate), x) {
          ReachedDeeper(t, k, Out(t, k, rate), x);
        }
      }
      if !t.follows[k] || Accepts(t, k, rate) {
        BelowKidsExpected(t, c, kids[1..], rate, x, y);
      }
    }
  }

  /** The children before position `i` let the loop go on. */
  ghost predicate Tried(t: Tree, kids: seq<nat>, rate: nat, i: nat)
    requires WellBuilt(t) && i <= |kids| && forall j :: 0 <= j < |kids| ==> kids[j] < |t.f|
  {
    forall j :: 0 <= j < i && t.follows[kids[j]] ==> Accepts(t, kids[j], rate)
  }

  /** Nothing is expected when no child that is tried is on the way to `x`. */
  lemma {:induction false} ExpectedNone(t: Tree, c: nat, kids: seq<nat>, rate: nat, x: nat, y: nat)
    requires WellBuilt(t) && c < |t.f| && x < |t.f| && AreKids(t, c, kids)
    requires forall i: nat :: i < |kids| && Tried(t, kids, rate, i) ==> !OnWay(t, kids[i], rate, x)
    ensures Expected(t, kids, rate, x, y) == 0
    decreases |kids|
  {
    if kids == [] {
    } else {
      assert Tried(t, kids, rate, 0);
      if !t.follows[kids[0]] || Accepts(t, kids[0], rate) {
        forall i: nat | i < |kids[1..]| && Tried(t, kids[1..], rate, i)
          ensures !OnWay(t, kids[1..][i], rate, x)
        {
          TriedNext(t, c, kids, rate, i);
        }
        ExpectedNone(t, c, kids[1..], rate, x, y);
      }
    }
  }

  lemma TriedNext(t: Tree, c: nat, kids: seq<nat>, rate: nat, i: nat)
    requires WellBuilt(t) && AreKids(t, c, kids) && i < |kids| - 1
    requires !t.follows[kids[0]] || Accepts(t, kids[0], rate)
    ensures Tried(t, kids[1..], rate, i) <==> Tried(t, kids, rate, i + 1)
  {
    if Tried(t, kids[1..], rate, i) {
      forall j | 0 <= j < i + 1 && t.follows[kids[j]]
        ensures Accepts(t, kids[j], rate)
      {
        assert j > 0 ==> kids[j] == kids[1..][j - 1];
      }
    }
    if Tried(t, kids, rate, i + 1) {
      forall j | 0 <= j < i && t.follows[kids[1..][j]]
        ensures Accepts(t, kids[1..][j], rate)
      {
        assert kids[1..][j] == kids[j + 1];
      }
    }
  }

  /** Only one child is on the way to `x`. */
  lemma {:induction false} ExpectedOne(t: Tree, c: nat, kids: seq<nat>, rate: nat, x: nat, y: nat, i: nat)
    requires WellBuilt(t) && c < |t.f| && x < |t.f| && AreKids(t, c, kids) && i < |kids|
    requires OnWay(t, kids[i], rate, x) && Tried(t, kids, rate, i)
    ensures Expected(t, kids, rate, x, y) == ExpectedBy(t, kids[i], rate, x, y)
    decreases |kids|
  {
    if i == 0 {
      forall j: nat | j < |kids[1..]|
        ensures !OnWay(t, kids[1..][j], rate, x)
      {
        SiblingsApart(t, c, rate, kids[0], kids[j + 1], x);
      }
      ExpectedNone(t, c, kids[1..], rate, x, y);
    } else {
      SiblingsApart(t, c, rate, kids[i], kids[0], x);
      TriedNext(t, c, kids, rate, i - 1);
      ExpectedOne(t, c, kids[1..], rate, x, y, i - 1);
    }
  }

  lemma SiblingsApart(t: Tree, c: nat, rate: nat, k: nat, i: nat, x: nat)
    requires WellBuilt(t) && c < |t.f| && x < |t.f| && k < |t.f| && i < |t.f| && k != i
    requires t.f[k] == Some(c) && t.f[i] == Some(c) && OnWay(t, k, rate, x)
    ensures !OnWay(t, i, rate, x)
  {
    assert t.d[k] == t.d[t.f[k].value] + 1 && t.d[i] == t.d[t.f[i].value] + 1;
    if x != k {
      ReachedDeeper(t, k, Out(t, k, rate), x);
    }
    if OnWay(t, i, rate, x) && x != i {
      ReachedDeeper(t, i, Out(t, i, rate), x);
    }
  }

  /** A child has its turn exactly when the loop over the children gets to it. */
  lemma TurnTried(t: Tree, c: nat, rate: nat, i: nat)
    requires WellBuilt(t) && c < |t.f| && AreKids(t, c, Children(t, c)) && i < |Children(t, c)|
    ensures HasTurn(t, c, rate, Children(t, c)[i]) <==> Tried(t, Children(t, c), rate, i)
  {
    ChildrenListed(t.f, c, |t.f|);
    var kids := Children(t, c);
    if Tried(t, kids, rate, i) {
      forall k: nat | k < |t.f| && k < kids[i] && t.f[k] == Some(c) && t.follows[k]
        ensures Accepts(t, k, rate)
      {
        var j :| 0 <= j < |kids| && kids[j] == k;
        assert j < i;
      }
    }
    if HasTurn(t, c, rate, kids[i]) {
      forall j | 0 <= j < i && t.follows[kids[j]]
        ensures Accepts(t, kids[j], rate)
      {
        assert kids[j] < kids[i];
      }
    }
  }

  /**
    Among all calls a rate event at `c` causes, a descendant that is reached appears exactly once, with the composed
    rate, and no other clock appears at all: a driver that fails cuts off its own descendants, its later siblings and
    theirs.
  */
  lemma {:induction false} CalledOnce(t: Tree, c: nat, rate: nat, x: nat, y: nat)
    requires WellBuilt(t) && c < |t.f| && x < |t.f|
    ensures Below(t, c, rate)[Rate(x, y)] ==
      if Reached(t, c, rate, x) && y == InputRate(t, c, rate, x) then 1 else 0
    decreases t.top - t.d[c], 1, 0
  {
    ChildrenDeeper(t, c);
    var kids := Children(t, c);
    BelowKidsExpected(t, c, kids, rate, x, y);
    if Reached(t, c, rate, x) {
      var k := FirstOnTheWay(t, c, rate, x);
      ChildrenListed(t.f, c, |t.f|);
      var i :| 0 <= i < |kids| && kids[i] == k;
      TurnTried(t, c, rate, i);
      ExpectedOne(t, c, kids, rate, x, y, i);
    } else {
      NotExpected(t, c, rate, x, y);
    }
  }

  lemma NotExpected(t: Tree, c: nat, rate: nat, x: nat, y: nat)
    requires WellBuilt(t) && c < |t.f| && x < |t.f| && AreKids(t, c, Children(t, c)) && !Reached(t, c, rate, x)
    ensures Expected(t, Children(t, c), rate, x, y) == 0
  {
    var kids := Children(t, c);
    forall i: nat | i < |kids| && Tried(t, kids, rate, i)
      ensures !OnWay(t, kids[i], rate, x)
    {
      TurnTried(t, c, rate, i);
      if OnWay(t, kids[i], rate, x) {
        ReachedThrough(t, c, rate, kids[i], x);
      }
    }
    ExpectedNone(t, c, kids, rate, x, y);
  }

  // ---------- the code ----------

  /** Rate events of the clock module. */
  class RateCtx {
    const tree: Tree
    /** The children lists built when the tree was connected. */
    const children: seq<seq<nat>>

    var queue: seq<Rate>
    var calls: seq<Rate>

    ghost predicate Valid()
      reads this
    {
      && WellBuilt(tree) && Clocks(tree, View())
      && |children| == |tree.f| && forall c :: 0 <= c < |tree.f| ==> children[c] == Children(tree, c)
    }

    ghost function View(): RateState
      reads this
    {
      RateState(queue, calls)
    }

    constructor (tree: Tree, children: seq<seq<nat>>)
      requires WellBuilt(tree)
      requires |children| == |tree.f| && forall c :: 0 <= c < |tree.f| ==> children[c] == Children(tree, c)
      ensures Valid() && this.tree == tree && this.children == children && queue == [] && calls == []
    {
      this.tree, this.children, queue, calls := tree, children, [], [];
    }

    /** `clock_management_process_rate`: a failing driver ends the loop, and its status is returned. */
    method ProcessRate(e: Rate) returns (status: int)
      requires Valid() && e.clock < |tree.f|
      modifies this
      ensures AreKids(tree, e.clock, Children(tree, e.clock))
      ensures (View(), status) == ProcessKids(tree, old(View()), Children(tree, e.clock), e.rate)
      ensures EndsAtFailure(tree, old(calls), calls, e.rate, status)
      ensures Valid()
    {
      ChildrenDeeper(tree, e.clock);
      ProcessKidsEnds(tree, View(), Children(tree, e.clock), e.rate);
      hide EndsAtFailure;
      var kids := children[e.clock];
      var inRate := e.rate;
      for i := 0 to |kids|
        invariant Valid()
        invariant ProcessKids(tree, old(View()), kids, e.rate) == ProcessKids(tree, View(), kids[i..], e.rate)
      {
        var k := kids[i];
        assert kids[i..][1..] == kids[i + 1..];
        if tree.follows[k] {
          var answer := tree.drv(Rate(k, inRate));
          calls := calls + [Rate(k, inRate)];
          if answer.0 != SUCCESS {
            return answer.0;
          }
          queue := queue + [Rate(k, answer.1)];
        }
      }
      return SUCCESS;
    }

    /**
      A new rate of clock `c` handed down until the queue is empty, which it is in the end: the driver calls made are
      exactly those the event promises.
    */
    method PropagateRate(c: nat, rate: nat)
      requires Valid() && c < |tree.f| && queue == [] && calls == []
      modifies this
      ensures Valid() && queue == [] && multiset(calls) == Below(tree, c, rate)
    {
      queue := [Rate(c, rate)];
      AccountFirst(tree, c, rate);
      while queue != []
        invariant Valid()
        invariant Account(tree, View()) == Below(tree, c, rate)
        decreases |Pending(tree, queue)| + |queue|
      {
        ghost var before := View();
        HandleConserves(tree, before);
        HandleCounts(tree, before);
        var e := queue[0];
        queue := queue[1..];
        var status := ProcessRate(e);
        assert View() == Handle(tree, before);
      }
    }
  }

  /** One handled event: no more events sent than driver calls made. */
  lemma {:induction false} ProcessKidsCounts(t: Tree, s: RateState, kids: seq<nat>, rate: nat)
    requires forall i :: 0 <= i < |kids| ==> kids[i] < |t.follows|
    ensures var r := ProcessKids(t, s, kids, rate).0;
      |r.queue| - |s.queue| <= |r.calls| - |s.calls|
    decreases |kids|
  {
    if kids == [] {
    } else if !t.follows[kids[0]] {
      ProcessKidsCounts(t, s, kids[1..], rate);
    } else {
      var call := Rate(kids[0], rate);
      if t.drv(call).0 == SUCCESS {
        ProcessKidsCounts(t, RateState(s.queue + [Rate(kids[0], t.drv(call).1)], s.calls + [call]), kids[1..], rate);
      }
    }
  }

  lemma HandleCounts(t: Tree, s: RateState)
    requires WellBuilt(t) && Clocks(t, s) && s.queue != []
    ensures Clocks(t, Handle(t, s))
    ensures |Pending(t, Handle(t, s).queue)| + |Handle(t, s).queue| < |Pending(t, s.queue)| + |s.queue|
  {
    var r := Handle(t, s);
    HandleConserves(t, s);
    ChildrenDeeper(t, s.queue[0].clock);
    ProcessKidsCounts(t, s.(queue := s.queue[1..]), Children(t, s.queue[0].clock), s.queue[0].rate);
    assert |Account(t, r)| == |Account(t, s)|;
    assert |multiset(r.calls)| == |r.calls| && |multiset(s.calls)| == |s.calls|;
  }
}
