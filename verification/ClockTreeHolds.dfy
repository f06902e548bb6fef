/** Which clocks run: reference counting makes the holds determine the whole tree. */
module ClockTreeHolds {
  import opened FwkStatus
  import opened ClockTree
  import opened ClockTreeInvariant

  /** Some clock with a hold has `c` on its way to the root. */
  ghost predicate HeldBelow(f: Forest, d: seq<nat>, hold: seq<nat>, c: nat)
    requires Depths(f, d) && |hold| == |f|
  {
    exists x: nat, k: nat :: x < |f| && k <= d[x] && ChainOf(f, d, x)[k] == c && hold[x] > 0
  }

  lemma HeldRuns(f: Forest, d: seq<nat>, dev: seq<Dev>, hold: seq<nat>, x: nat, k: nat)
    requires Depths(f, d) && Counts(f, dev, hold) && x < |f| && k <= d[x] && hold[x] > 0
    requires !IsSingleNode(f, ChainOf(f, d, x)[k])
    ensures dev[ChainOf(f, d, x)[k]].running
  {
    var chain := ChainOf(f, d, x);
    RefIs(f, dev, hold, chain[k]);
    if k > 0 {
      assert f[chain[k - 1]] == Some(chain[k]);
      assert !IsSingleNode(f, chain[k - 1]);
      HeldRuns(f, d, dev, hold, x, k - 1);
      assert chain[k - 1] in RunningKids(f, dev, chain[k]);
    }
  }

  lemma RunsHeld(f: Forest, d: seq<nat>, dev: seq<Dev>, hold: seq<nat>, top: nat, c: nat) returns (x: nat, k: nat)
    requires Depths(f, d) && Counts(f, dev, hold) && c < |f| && !IsSingleNode(f, c) && dev[c].running
    requires forall i :: 0 <= i < |d| ==> d[i] <= top
    ensures x < |f| && k <= d[x] && ChainOf(f, d, x)[k] == c && hold[x] > 0
    decreases top - d[c]
  {
    if hold[c] > 0 {
      x, k := c, 0;
    } else {
      RefIs(f, dev, hold, c);
      var kid :| kid in RunningKids(f, dev, c);
      assert d[kid] == d[f[kid].value] + 1;
      x, k := RunsHeld(f, d, dev, hold, top, kid);
      var chain := ChainOf(f, d, x);
      assert f[chain[k]] == if k + 1 < |chain| then Some(chain[k + 1]) else None;
      k := k + 1;
    }
  }

  lemma DepthBound(d: seq<nat>) returns (top: nat)
    ensures forall i :: 0 <= i < |d| ==> d[i] <= top
  {
    if d == [] {
      top := 0;
    } else {
      top := DepthBound(d[..|d| - 1]);
      if d[|d| - 1] > top {
        top := d[|d| - 1];
      }
      assert forall i :: 0 <= i < |d| - 1 ==> d[i] == d[..|d| - 1][i];
    }
  }

  /** Between requests, a clock of a tree runs exactly when a hold below it needs it. */
  lemma RunningExactlyWhenHeld(f: Forest, d: seq<nat>, dev: seq<Dev>, hold: seq<nat>, c: nat)
    requires Depths(f, d) && Counts(f, dev, hold) && c < |f| && !IsSingleNode(f, c)
    ensures dev[c].running <==> HeldBelow(f, d, hold, c)
  {
    if dev[c].running {
      var top := DepthBound(d);
      var x, k := RunsHeld(f, d, dev, hold, top, c);
    }
    if HeldBelow(f, d, hold, c) {
      var x: nat, k: nat :| x < |f| && k <= d[x] && ChainOf(f, d, x)[k] == c && hold[x] > 0;
      HeldRuns(f, d, dev, hold, x, k);
    }
  }

  /** The holds determine the whole tree: which clocks run and every reference count. */
  lemma HoldsDetermineTree(f: Forest, d: seq<nat>, dev: seq<Dev>, dev': seq<Dev>, hold: seq<nat>)
    requires Depths(f, d) && Counts(f, dev, hold) && Counts(f, dev', hold)
    ensures forall c :: 0 <= c < |f| && !IsSingleNode(f, c) ==> dev[c].running == dev'[c].running
    ensures forall c :: 0 <= c < |f| ==> dev[c].refCount == dev'[c].refCount
  {
    forall c | 0 <= c < |f| && !IsSingleNode(f, c)
      ensures dev[c].running == dev'[c].running
    {
      RunningExactlyWhenHeld(f, d, dev, hold, c);
      RunningExactlyWhenHeld(f, d, dev', hold, c);
    }
    forall p | 0 <= p < |f|
      ensures dev[p].refCount == dev'[p].refCount
    {
      RefIs(f, dev, hold, p);
      RefIs(f, dev', hold, p);
      assert RunningKids(f, dev, p) == RunningKids(f, dev', p) by {
        SameKids(f, dev, dev', p);
      }
    }
  }

  lemma SameKids(f: Forest, dev: seq<Dev>, dev': seq<Dev>, p: nat)
    requires |dev| == |dev'| == |f|
    requires forall c :: 0 <= c < |f| && !IsSingleNode(f, c) ==> dev[c].running == dev'[c].running
    ensures RunningKids(f, dev, p) == RunningKids(f, dev', p)
  {
    forall x: nat | x < |f| && f[x] == Some(p)
      ensures dev[x].running == dev'[x].running
    {
      assert !IsSingleNode(f, x);
    }
  }

  /**
    What `clock_connect_tree` sets up (every count is the number of running children) is a sound starting
    point exactly when every clock of a tree is stopped: a running leaf would have count 0.
  */
  lemma ConnectedExactlyWhenStopped(f: Forest, d: seq<nat>, dev: seq<Dev>, zero: seq<nat>)
    requires Depths(f, d) && |dev| == |zero| == |f|
    requires forall c :: 0 <= c < |f| ==> zero[c] == 0 && dev[c].refCount == |RunningKids(f, dev, c)|
    ensures Counts(f, dev, zero) <==> forall c :: 0 <= c < |f| && !IsSingleNode(f, c) ==> !dev[c].running
  {
    if Counts(f, dev, zero) {
      forall c | 0 <= c < |f| && !IsSingleNode(f, c)
        ensures !dev[c].running
      {
        RunningExactlyWhenHeld(f, d, dev, zero, c);
      }
    }
    if forall c :: 0 <= c < |f| && !IsSingleNode(f, c) ==> !dev[c].running {
      forall p | 0 <= p < |f|
        ensures RunningKids(f, dev, p) == {}
      {
        forall x: nat | x < |f| && f[x] == Some(p)
          ensures !dev[x].running
        {
          assert !IsSingleNode(f, x);
        }
      }
    }
  }
}
