/**
  What STOP messages leave behind when drivers may refuse them: which clocks run, which references are accounted for,
  and whether the documented rule still holds, in terms of the driver calls that were made.
*/
module ClockTreeRefusals {
  import opened FwkStatus
  import opened ClockTree
  import opened ClockTreeInvariant
  import opened ClockTreeSteps
  import opened ClockTreeStops

  // ---------- in terms of the log ----------

  /** A refusal reaches up: of two neighbours told to stop, the parent refused if the child did. */
  ghost predicate RefusalsReach(log: seq<Record>, from: nat) {
    forall j: nat, k: nat :: k == j + 1 && StopRefused(log, from, j) && StopAsked(log, from, k) ==>
      StopRefused(log, from, k)
  }

  /** The driver of clock `c` refused to stop. */
  ghost predicate RefusedAt(log: seq<Record>, from: nat, c: nat) {
    exists j: nat :: StopRefused(log, from, j) && log[from + 2 * j + 1].call == SetState(c, STOPPED)
  }

  /** The call at `from + 2 * j` asks a clock for its state, the next stops it, the one after asks its parent. */
  predicate ClimbsAt(f: Forest, log: seq<Record>, from: nat, j: nat) {
    from + 2 * j < |log| ==>
      && var c := log[from + 2 * j].call.clock;
      && c < |f| && log[from + 2 * j].call == GetState(c, STOPPED)
      && (StopAsked(log, from, j) ==> log[from + 2 * j + 1].call == SetState(c, STOPPED))
      && (from + 2 * j + 2 < |log| ==> f[c].Some? && log[from + 2 * j + 2].call == GetState(f[c].value, STOPPED))
  }

  /** The calls from `from` on climb the tree, two at every clock told to stop. */
  ghost predicate CallsClimb(f: Forest, log: seq<Record>, from: nat) {
    forall j: nat :: ClimbsAt(f, log, from, j)
  }

  /** A clock of a tree that runs without a reference. */
  ghost predicate Orphan(f: Forest, dev: seq<Dev>, c: nat)
    requires |dev| == |f|
  {
    c < |f| && !IsSingleNode(f, c) && dev[c].running && dev[c].refCount == 0
  }

  predicate AllSucceed(log: seq<Record>, from: nat) {
    forall i :: from <= i < |log| ==> log[i].status == SUCCESS
  }

  lemma StatusAt(log: seq<Record>, k: Track, p: Phase, j: nat)
    requires CallsMade(log, k, p)
    ensures var from := |k.base.log|;
      && (StopAsked(log, from, j) <==> j < |p.stops|)
      && (StopRefused(log, from, j) <==> j < |p.stops| && p.stops[j] != SUCCESS)
      && (j < |p.stops| ==> log[from + 2 * j] == Record(GetState(k.chain[j], STOPPED), SUCCESS) &&
                            log[from + 2 * j + 1] == Record(SetState(k.chain[j], STOPPED), p.stops[j]))
  {
    var from := |k.base.log|;
    if j < |p.stops| {
      assert CalledAt(log, from, j, k.chain[j], p.stops[j]);
      assert log[from + 2 * j..from + 2 * j + 2][0] == log[from + 2 * j];
      assert log[from + 2 * j..from + 2 * j + 2][1] == log[from + 2 * j + 1];
    }
  }

  lemma CallsClimbed(f: Forest, d: seq<nat>, k: Track, t: State, p: Phase)
    requires Setting(f, d, k) && CallsMade(t.log, k, p)
    ensures CallsClimb(f, t.log, |k.base.log|)
  {
    forall j: nat
      ensures ClimbsAt(f, t.log, |k.base.log|, j)
    {
      StatusAt(t.log, k, p, j);
      StatusAt(t.log, k, p, j + 1);
      if j == |p.stops| && p.more {
        assert |t.log| - 1 == |k.base.log| + 2 * j;
      }
      if j + 1 == |p.stops| && p.more {
        assert |t.log| - 1 == |k.base.log| + 2 * j + 2;
      }
      assert j + 1 < |k.chain| ==> f[k.chain[j]] == Some(k.chain[j + 1]);
    }
  }

  /** The calls of a STOP message all succeed exactly when every clock obeyed and the last query, if any, succeeded. */
  lemma SucceedExactly(log: seq<Record>, k: Track, p: Phase)
    requires CallsMade(log, k, p)
    ensures AllSucceed(log, |k.base.log|) <==> Clean(p)
  {
    var from := |k.base.log|;
    if AllSucceed(log, from) {
      forall j | 0 <= j < |p.stops|
        ensures p.stops[j] == SUCCESS
      {
        StatusAt(log, k, p, j);
      }
    }
    if Clean(p) {
      forall i | from <= i < |log|
        ensures log[i].status == SUCCESS
      {
        if i < from + 2 * |p.stops| {
          StatusAt(log, k, p, (i - from) / 2);
        } else {
          assert i == |log| - 1;
        }
      }
    }
  }

  // ---------- the documented rule ----------

  lemma OneKid(kids: set<nat>, x: nat, y: nat)
    requires x in kids && y in kids && |kids| <= 1
    ensures x == y
  {
    assert |kids - {x}| == |kids| - 1;
    assert kids - {x} == {};
  }

  /** A running child of a clock told to stop is the clock below it on the climb, and it was told to stop too. */
  lemma KidOnClimb(f: Forest, d: seq<nat>, k: Track, now: seq<Dev>, p: Phase, j: nat, c: nat)
    requires Setting(f, d, k) && Accounts(k.base.dev, now, k.level, p.stops, p.gave)
    requires j < |p.stops| <= |k.chain| && c < |f| && f[c] == Some(k.chain[j]) && k.base.dev[c].running
    ensures j > 0 && c == k.chain[j - 1]
  {
    var x, e := k.chain[j], AddAt(k.e, Some(k.chain[0]));
    assert k.level[x] == j && AccountOf(k.base.dev[x], now[x], j, p.stops, p.gave);
    RefIs(f, k.base.dev, e, x);
    assert c in RunningKids(f, k.base.dev, x);
    if j == 0 {
      assert false;
    } else {
      var kid := k.chain[j - 1];
      assert f[kid] == Some(x);
      assert k.level[kid] == j - 1 && AccountOf(k.base.dev[kid], now[kid], j - 1, p.stops, p.gave);
      OneKid(RunningKids(f, k.base.dev, x), c, kid);
    }
  }

  ghost predicate RefusalsReachUp(stops: seq<int>) {
    forall j {:trigger stops[j]} :: 0 < j < |stops| && stops[j - 1] != SUCCESS ==> stops[j] != SUCCESS
  }

  lemma SafeIfReach(f: Forest, d: seq<nat>, k: Track, t: State, p: Phase)
    requires Setting(f, d, k) && WellFormed(f, k.base) && WellFormed(f, t) && |p.stops| <= |k.chain|
    requires Accounts(k.base.dev, t.dev, k.level, p.stops, p.gave) && RefusalsReachUp(p.stops)
    ensures TreeSafe(f, t)
  {
    CountsSafe(f, k.base, AddAt(k.e, Some(k.chain[0])));
    forall c | 0 <= c < |f| && f[c].Some? && t.dev[c].running
      ensures t.dev[f[c].value].running
    {
      var x := f[c].value;
      assert AccountOf(k.base.dev[c], t.dev[c], k.level[c], p.stops, p.gave);
      assert AccountOf(k.base.dev[x], t.dev[x], k.level[x], p.stops, p.gave);
      var j := k.level[x];
      if 0 <= j < |p.stops| {
        KidOnClimb(f, d, k, t.dev, p, j, c);
        assert k.level[k.chain[j - 1]] == j - 1;
        assert p.stops[j - 1] != SUCCESS;
        assert p.stops[j] != SUCCESS;
      }
    }
  }

  lemma ReachIfSafe(f: Forest, d: seq<nat>, k: Track, t: State, p: Phase)
    requires Setting(f, d, k) && |p.stops| <= |k.chain| && TreeSafe(f, t)
    requires Accounts(k.base.dev, t.dev, k.level, p.stops, p.gave)
    ensures RefusalsReachUp(p.stops)
  {
    forall j | 0 < j < |p.stops| && p.stops[j - 1] != SUCCESS
      ensures p.stops[j] != SUCCESS
    {
      var c, x := k.chain[j - 1], k.chain[j];
      assert f[c] == Some(x) && k.level[c] == j - 1 && k.level[x] == j;
      assert AccountOf(k.base.dev[c], t.dev[c], j - 1, p.stops, p.gave);
      assert AccountOf(k.base.dev[x], t.dev[x], j, p.stops, p.gave);
      assert t.dev[f[c].value].running;
    }
  }

  lemma ReachInLog(log: seq<Record>, k: Track, p: Phase)
    requires CallsMade(log, k, p)
    ensures RefusalsReach(log, |k.base.log|) <==> RefusalsReachUp(p.stops)
  {
    var from := |k.base.log|;
    if RefusalsReachUp(p.stops) {
      forall i: nat, j: nat | j == i + 1 && StopRefused(log, from, i) && StopAsked(log, from, j)
        ensures StopRefused(log, from, j)
      {
        StatusAt(log, k, p, i);
        StatusAt(log, k, p, j);
        assert p.stops[j - 1] != SUCCESS;
      }
    }
    if RefusalsReach(log, from) {
      forall j | 0 < j < |p.stops| && p.stops[j - 1] != SUCCESS
        ensures p.stops[j] != SUCCESS
      {
        StatusAt(log, k, p, j - 1);
        StatusAt(log, k, p, j);
        assert StopRefused(log, from, j - 1) && StopAsked(log, from, j);
      }
    }
  }

  /** Wherever the message is, the documented rule holds exactly when refusals reach up. */
  lemma SafeExactly(f: Forest, d: seq<nat>, k: Track, t: State, p: Phase)
    requires Setting(f, d, k) && WellFormed(f, k.base) && Flying(f, d, k, t, p)
    ensures TreeSafe(f, t) <==> RefusalsReach(t.log, |k.base.log|)
  {
    ReachInLog(t.log, k, p);
    if TreeSafe(f, t) {
      ReachIfSafe(f, d, k, t, p);
    }
    if RefusalsReachUp(p.stops) {
      SafeIfReach(f, d, k, t, p);
    }
  }

  // ---------- references ----------

  lemma OrphanRefused(f: Forest, d: seq<nat>, k: Track, t: State, p: Phase, c: nat)
    requires Setting(f, d, k) && Flying(f, d, k, t, p) && Orphan(f, t.dev, c)
    ensures RefusedAt(t.log, |k.base.log|, c)
  {
    var l := k.level[c];
    assert AccountOf(k.base.dev[c], t.dev[c], l, p.stops, p.gave);
    RefIs(f, k.base.dev, AddAt(k.e, Some(k.chain[0])), c);
    assert k.chain[l] == c;
    StatusAt(t.log, k, p, l);
  }

  lemma ToldAccount(f: Forest, d: seq<nat>, k: Track, t: State, p: Phase, j: nat)
    requires Setting(f, d, k) && Flying(f, d, k, t, p) && j < |p.stops|
    ensures j < |k.chain| && k.chain[j] < |f| && !IsSingleNode(f, k.chain[j])
    ensures t.dev[k.chain[j]].refCount == 0 && (t.dev[k.chain[j]].running <==> p.stops[j] != SUCCESS)
  {
    var c := k.chain[j];
    assert c == k.run.chain[k.above + j];
    ChainNotSingle(f, d, k.run.chain, k.above + j);
    assert k.level[c] == j && AccountOf(k.base.dev[c], t.dev[c], j, p.stops, p.gave);
  }

  /** The clocks of trees that run without a reference are exactly those that refused to stop. */
  lemma OrphanExactly(f: Forest, d: seq<nat>, k: Track, t: State, p: Phase, c: nat)
    requires Setting(f, d, k) && Flying(f, d, k, t, p) && c < |f|
    ensures Orphan(f, t.dev, c) <==> RefusedAt(t.log, |k.base.log|, c)
  {
    if Orphan(f, t.dev, c) {
      OrphanRefused(f, d, k, t, p, c);
    }
    if RefusedAt(t.log, |k.base.log|, c) {
      var j: nat :| StopRefused(t.log, |k.base.log|, j) && t.log[|k.base.log| + 2 * j + 1].call == SetState(c, STOPPED);
      StatusAt(t.log, k, p, j);
      ToldAccount(f, d, k, t, p, j);
    }
  }

  lemma OrphansExactly(f: Forest, d: seq<nat>, k: Track, t: State, p: Phase)
    requires Setting(f, d, k) && Flying(f, d, k, t, p)
    ensures forall c: nat :: c < |f| ==> (Orphan(f, t.dev, c) <==> RefusedAt(t.log, |k.base.log|, c))
  {
    forall c: nat | c < |f|
      ensures Orphan(f, t.dev, c) <==> RefusedAt(t.log, |k.base.log|, c)
    {
      OrphanExactly(f, d, k, t, p, c);
    }
  }

  /** Once the message is gone, the references are accounted for without it exactly when all its calls succeeded. */
  lemma AccountedExactly(f: Forest, d: seq<nat>, k: Track, t: State, p: Phase)
    requires Setting(f, d, k) && Flying(f, d, k, t, p) && p.stop.NoStop?
    ensures Counts(f, t.dev, k.e) <==> AllSucceed(t.log, |k.base.log|)
  {
    SucceedExactly(t.log, k, p);
    if Counts(f, t.dev, k.e) {
      forall j | 0 <= j < |p.stops|
        ensures p.stops[j] == SUCCESS
      {
        ToldAccount(f, d, k, t, p, j);
        assert t.dev[k.chain[j]].running <==> t.dev[k.chain[j]].refCount > 0;
      }
      if p.more && !p.gave {
        var c := k.chain[|p.stops|];
        RefIs(f, t.dev, k.e, c);
        RefIs(f, t.dev, AddAt(k.e, Some(c)), c);
        assert false;
      }
    }
  }
}
