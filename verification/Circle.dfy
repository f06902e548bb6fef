/**
  The circle that an intrusive list forms: a header, which is itself a node, followed by the listed nodes, the last
  of which leads back to the header (framework/include/internal/fwk_dlist.h, fwk_slist.h).
*/
module Circle {

  /** The node after position `i`; position -1 is the header. */
  ghost function After<N>(header: N, nodes: seq<N>, i: int): N
    requires -1 <= i < |nodes|
  {
    if i + 1 < |nodes| then nodes[i + 1] else header
  }

  /** The node before position `i`; position `|nodes|` is the header. */
  ghost function Before<N>(header: N, nodes: seq<N>, i: nat): N
    requires i <= |nodes|
  {
    if i > 0 then nodes[i - 1] else header
  }

  ghost predicate Distinct<N>(header: N, nodes: seq<N>) {
    && (forall i :: 0 <= i < |nodes| ==> nodes[i] != header)
    && (forall i, j :: 0 <= i < j < |nodes| ==> nodes[i] != nodes[j])
  }

  ghost function Without<N>(nodes: seq<N>, k: nat): seq<N>
    requires k < |nodes|
  {
    nodes[..k] + nodes[k + 1..]
  }

  ghost function With<N>(nodes: seq<N>, k: nat, node: N): seq<N>
    requires k <= |nodes|
  {
    nodes[..k] + [node] + nodes[k..]
  }

  lemma WithDistinct<N>(header: N, nodes: seq<N>, k: nat, node: N)
    requires k <= |nodes| && Distinct(header, nodes) && node != header && node !in nodes
    ensures Distinct(header, With(nodes, k, node))
    ensures forall n :: n in With(nodes, k, node) <==> n == node || n in nodes
  {
    assert nodes == nodes[..k] + nodes[k..];
  }

  lemma WithoutDistinct<N>(header: N, nodes: seq<N>, k: nat)
    requires k < |nodes| && Distinct(header, nodes)
    ensures Distinct(header, Without(nodes, k))
    ensures forall n :: n in Without(nodes, k) <==> n != nodes[k] && n in nodes
  {
    assert nodes == nodes[..k] + [nodes[k]] + nodes[k + 1..];
  }
}
