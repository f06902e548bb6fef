/**
  A fixed table of records whose slots move between lists (framework/src/fwk_core.c, framework/src/fwk_notification.c):
  every slot is always in one list, or in the hands of the operation that is moving it.
*/
module Pool {

  function Dropped<P, T>(lists: map<P, seq<T>>, p: P, k: nat): map<P, seq<T>>
    requires p in lists && k < |lists[p]|
  {
    lists[p := lists[p][..k] + lists[p][k + 1..]]
  }

  function Appended<P, T>(lists: map<P, seq<T>>, p: P, x: T): map<P, seq<T>>
    requires p in lists
  {
    lists[p := lists[p] + [x]]
  }

  /** Every slot below `n` is in hand or in the one list that `home` names, once, and the lists hold only slots. */
  ghost predicate Partition<P>(n: nat, at: map<P, seq<nat>>, hands: set<nat>, home: map<nat, P>) {
    && (forall p, i {:trigger at[p][i]} :: p in at && 0 <= i < |at[p]| ==> at[p][i] in home && home[at[p][i]] == p)
    && (forall p, i, j {:trigger at[p][i], at[p][j]} :: p in at && 0 <= i < j < |at[p]| ==> at[p][i] != at[p][j])
    && (forall s :: s in home ==> s < n && s !in hands && home[s] in at && s in at[home[s]])
    && (forall s: nat :: s < n ==> s in home || s in hands)
    && (forall s :: s in hands ==> s < n)
  }

  lemma DroppedPartition<P>(n: nat, at: map<P, seq<nat>>, hands: set<nat>, home: map<nat, P>, p: P, k: nat)
    requires Partition(n, at, hands, home) && p in at && k < |at[p]|
    ensures var s := at[p][k];
      && s !in hands && s in home
      && Partition(n, Dropped(at, p, k), hands + {s}, home - {s})
  {
    var s := at[p][k];
    var rest := at[p][..k] + at[p][k + 1..];
    forall t | t in home && t != s && home[t] == p
      ensures t in rest
    {
      assert at[p] == at[p][..k] + [s] + at[p][k + 1..];
    }
  }

  lemma AppendedPartition<P>(n: nat, at: map<P, seq<nat>>, hands: set<nat>, home: map<nat, P>, p: P, s: nat)
    requires Partition(n, at, hands, home) && p in at && s in hands
    ensures s !in home && Partition(n, Appended(at, p, s), hands - {s}, home[s := p])
  {
  }

  /** The listed slots hold the listed records. */
  ghost predicate Holds<P, T>(table: seq<T>, at: map<P, seq<nat>>, records: map<P, seq<T>>) {
    && records.Keys == at.Keys
    && (forall p :: p in at ==> |at[p]| == |records[p]|)
    && (forall p, i {:trigger at[p][i]} {:trigger records[p][i]} :: p in at && 0 <= i < |at[p]| ==>
          at[p][i] < |table| && table[at[p][i]] == records[p][i])
  }

  lemma DroppedHolds<P, T>(table: seq<T>, at: map<P, seq<nat>>, records: map<P, seq<T>>, p: P, k: nat)
    requires Holds(table, at, records) && p in at && k < |at[p]|
    ensures Holds(table, Dropped(at, p, k), Dropped(records, p, k))
  {
  }

  lemma AppendedHolds<P, T>(table: seq<T>, at: map<P, seq<nat>>, records: map<P, seq<T>>, p: P, s: nat)
    requires Holds(table, at, records) && p in at && s < |table|
    ensures Holds(table, Appended(at, p, s), Appended(records, p, table[s]))
  {
  }

  /** What a partition means for one slot: it is in hand and in no list, or in one list at one position. */
  lemma EverySlotOnce<P>(n: nat, at: map<P, seq<nat>>, hands: set<nat>, home: map<nat, P>, s: nat)
      returns (p: P, i: nat)
    requires Partition(n, at, hands, home) && s < n && s !in hands
    ensures p in at && i < |at[p]| && at[p][i] == s
    ensures forall q, j {:trigger at[q][j]} :: q in at && 0 <= j < |at[q]| && at[q][j] == s ==> q == p && j == i
  {
    p := home[s];
    i :| 0 <= i < |at[p]| && at[p][i] == s;
  }

  /** The slots from `i` up to `n`. */
  ghost function From(i: nat, n: nat): (r: set<nat>)
    ensures forall s :: s in r <==> i <= s < n
    decreases n - i
  {
    if i >= n then {} else {i} + From(i + 1, n)
  }

  lemma FromNext(i: nat, n: nat)
    requires i < n
    ensures i in From(i, n) && From(i, n) - {i} == From(i + 1, n)
  {
  }

  lemma PutBack(hands: set<nat>, s: nat)
    requires s !in hands
    ensures hands + {s} - {s} == hands && (hands == {} ==> hands + {s} == {s})
  {
  }
}
