/**
  The circular doubly-linked list (framework/src/fwk_dlist.c): the header of a list is itself a node, its `next`
  the head of the list and its `prev` the tail, so that splices need no end cases.
*/
module DList {
  import opened Circle

  class Node<T> {
    var next: Node?<T>
    var prev: Node?<T>
    var data: T

    constructor (data: T)
      ensures this.data == data && next == null && prev == null
    {
      this.data, next, prev := data, null, null;
    }
  }

  /** `next` and `prev` are mutual inverses around the header. */
  ghost predicate Linked<T>(header: Node<T>, nodes: seq<Node<T>>)
    reads header, nodes
  {
    && header.next == After(header, nodes, -1)
    && header.prev == Before(header, nodes, |nodes|)
    && (forall i {:trigger nodes[i].next} :: 0 <= i < |nodes| ==> nodes[i].next == After(header, nodes, i))
    && (forall i {:trigger nodes[i].prev} :: 0 <= i < |nodes| ==> nodes[i].prev == Before(header, nodes, i))
  }

  /** The circle right after `node` was linked in before position `k`: all other links are still the old ones. */
  ghost predicate SplicedIn<T>(header: Node<T>, nodes: seq<Node<T>>, k: nat, node: Node<T>)
    requires k <= |nodes|
    reads header, nodes, node
  {
    var p, n := Before(header, nodes, k), After(header, nodes, k - 1);
    && node.prev == p && node.next == n && p.next == node && n.prev == node
    && (header != p ==> header.next == After(header, nodes, -1))
    && (header != n ==> header.prev == Before(header, nodes, |nodes|))
    && (forall i {:trigger nodes[i].next} :: 0 <= i < |nodes| && nodes[i] != p ==>
          nodes[i].next == After(header, nodes, i))
    && (forall i {:trigger nodes[i].prev} :: 0 <= i < |nodes| && nodes[i] != n ==>
          nodes[i].prev == Before(header, nodes, i))
  }

  lemma SplicedInAt<T>(header: Node<T>, nodes: seq<Node<T>>, k: nat, node: Node<T>, i: nat)
    requires k <= |nodes| && Distinct(header, nodes) && SplicedIn(header, nodes, k, node) && i <= |nodes|
    ensures var m := With(nodes, k, node);
      m[i].next == After(header, m, i) && m[i].prev == Before(header, m, i)
  {
    var m := With(nodes, k, node);
    if i < k {
      assert m[i] == nodes[i];
    } else if i > k {
      assert m[i] == nodes[i - 1];
    }
  }

  lemma SplicedInLinked<T>(header: Node<T>, nodes: seq<Node<T>>, k: nat, node: Node<T>)
    requires k <= |nodes| && Distinct(header, nodes) && SplicedIn(header, nodes, k, node)
    ensures Linked(header, With(nodes, k, node))
  {
    var m := With(nodes, k, node);
    forall i: nat | i < |m|
      ensures m[i].next == After(header, m, i) && m[i].prev == Before(header, m, i)
    {
      SplicedInAt(header, nodes, k, node, i);
    }
  }

  /** The circle right after position `k` was bridged over. */
  ghost predicate SplicedOut<T>(header: Node<T>, nodes: seq<Node<T>>, k: nat)
    requires k < |nodes|
    reads header, nodes
  {
    var p, n := Before(header, nodes, k), After(header, nodes, k);
    && p.next == n && n.prev == p
    && (header != p ==> header.next == After(header, nodes, -1))
    && (header != n ==> header.prev == Before(header, nodes, |nodes|))
    && (forall i {:trigger nodes[i].next} :: 0 <= i < |nodes| && nodes[i] != p && i != k ==>
          nodes[i].next == After(header, nodes, i))
    && (forall i {:trigger nodes[i].prev} :: 0 <= i < |nodes| && nodes[i] != n && i != k ==>
          nodes[i].prev == Before(header, nodes, i))
  }

  lemma SplicedOutAt<T>(header: Node<T>, nodes: seq<Node<T>>, k: nat, i: nat)
    requires k < |nodes| && Distinct(header, nodes) && SplicedOut(header, nodes, k) && i + 1 < |nodes|
    ensures var m := Without(nodes, k);
      m[i].next == After(header, m, i) && m[i].prev == Before(header, m, i)
  {
    var m := Without(nodes, k);
    assert m[i] == nodes[if i < k then i else i + 1];
  }

  lemma SplicedOutLinked<T>(header: Node<T>, nodes: seq<Node<T>>, k: nat)
    requires k < |nodes| && Distinct(header, nodes) && SplicedOut(header, nodes, k)
    ensures Linked(header, Without(nodes, k))
  {
    var m := Without(nodes, k);
    forall i: nat | i < |m|
      ensures m[i].next == After(header, m, i) && m[i].prev == Before(header, m, i)
    {
      SplicedOutAt(header, nodes, k, i);
    }
  }

  /** Around a linked circle `next` and `prev` undo each other, at every node and at the header. */
  lemma MutualInverses<T>(header: Node<T>, nodes: seq<Node<T>>, n: Node<T>)
    requires Distinct(header, nodes) && Linked(header, nodes) && (n == header || n in nodes)
    ensures n.next != null && n.prev != null && n.next.prev == n && n.prev.next == n
  {
    if n == header {
      assert |nodes| > 0 ==> nodes[0].prev == header && nodes[|nodes| - 1].next == header;
    } else {
      var i :| 0 <= i < |nodes| && nodes[i] == n;
      assert nodes[i].next == After(header, nodes, i) && nodes[i].prev == Before(header, nodes, i);
      assert i > 0 ==> nodes[i - 1].next == n;
      assert i + 1 < |nodes| ==> nodes[i + 1].prev == n;
    }
  }

  /** The links determine the sequence: one circle cannot represent two lists. */
  lemma {:induction false} LinksDetermineNodes<T>(header: Node<T>, a: seq<Node<T>>, b: seq<Node<T>>, n: nat)
    requires Distinct(header, a) && Linked(header, a) && Distinct(header, b) && Linked(header, b)
    requires n <= |a|
    ensures n <= |b| && a[..n] == b[..n]
    ensures n == |a| ==> a == b
  {
    if n == 0 {
      assert |a| == 0 ==> header.next == header;
      assert |b| > 0 ==> header.next == b[0];
    } else {
      LinksDetermineNodes(header, a, b, n - 1);
      assert After(header, a, n - 2) == a[n - 1];
      assert n > 1 ==> a[n - 2].next == a[n - 1] && a[n - 2] == a[..n - 1][n - 2] == b[..n - 1][n - 2] == b[n - 2];
      assert After(header, b, n - 2) == a[n - 1];
      assert a[n - 1].next == After(header, a, n - 1) && b[n - 1].next == After(header, b, n - 1);
    }
  }

  class List<T> {
    const header: Node<T>
    /** The nodes of the list in order. */
    ghost var nodes: seq<Node<T>>
    ghost var repr: set<object>

    /** The representation is this list, its header and its nodes, all distinct. */
    ghost predicate Shape()
      reads this
    {
      && this in repr && header in repr
      && (forall i :: 0 <= i < |nodes| ==> nodes[i] in repr)
      && (forall o :: o in repr ==> o == this || o == header || o in nodes)
      && Distinct(header, nodes)
    }

    ghost predicate Valid()
      reads this, repr
    {
      Shape() && Linked(header, nodes)
    }

    constructor (dummy: T)
      ensures Valid() && fresh(repr) && nodes == []
    {
      var h := new Node(dummy);
      header, nodes := h, [];
      new;
      h.next, h.prev := h, h;
      repr := {this, h};
    }

    /** Records that `node` has been linked in before position `k`. */
    ghost method Include(k: nat, node: Node<T>)
      requires Shape() && k <= |nodes| && node !in repr && SplicedIn(header, nodes, k, node)
      modifies this`nodes, this`repr
      ensures Valid() && nodes == With(old(nodes), k, node) && repr == old(repr) + {node}
    {
      WithDistinct(header, nodes, k, node);
      SplicedInLinked(header, nodes, k, node);
      nodes, repr := With(nodes, k, node), repr + {node};
    }

    /** Records that position `k` has been bridged over. */
    ghost method Exclude(k: nat)
      requires Shape() && k < |nodes| && SplicedOut(header, nodes, k)
      modifies this`nodes, this`repr
      ensures Valid() && nodes == Without(old(nodes), k) && repr == old(repr) - {old(nodes[k])}
    {
      WithoutDistinct(header, nodes, k);
      SplicedOutLinked(header, nodes, k);
      nodes, repr := Without(nodes, k), repr - {nodes[k]};
    }

    method IsEmpty() returns (r: bool)
      requires Valid()
      ensures r <==> nodes == []
    {
      r := header.next == header;
    }

    /** The first node, or null. */
    method Head() returns (r: Node?<T>)
      requires Valid()
      ensures r == if nodes == [] then null else nodes[0]
    {
      r := if header.next == header then null else header.next;
    }

    method PushHead(node: Node<T>)
      requires Valid() && node !in repr
      modifies this`nodes, this`repr, header`next, header`prev, nodes`next, nodes`prev, node`next, node`prev
      ensures Valid() && nodes == [node] + old(nodes) && repr == old(repr) + {node}
    {
      node.prev := header;
      header.next.prev := node;
      // With an empty list this already made the node the tail, so the singly-linked push has no tail to set.
      node.next := header.next;
      header.next := node;
      Include(0, node);
      assert [node] + old(nodes) == nodes;
    }

    method PushTail(node: Node<T>)
      requires Valid() && node !in repr
      modifies this`nodes, this`repr, header`next, header`prev, nodes`next, nodes`prev, node`next, node`prev
      ensures Valid() && nodes == old(nodes) + [node] && repr == old(repr) + {node}
    {
      node.prev := header.prev;
      node.next := header;
      header.prev.next := node;
      header.prev := node;
      Include(|nodes|, node);
      assert old(nodes) + [node] == nodes;
    }

    method PopHead() returns (popped: Node?<T>)
      requires Valid()
      modifies this`nodes, this`repr, header`next, header`prev, nodes`next, nodes`prev
      ensures Valid()
      ensures old(nodes) == [] ==> popped == null && nodes == [] && repr == old(repr)
      ensures old(nodes) != [] ==>
        && popped == old(nodes)[0] && nodes == old(nodes)[1..] && repr == old(repr) - {popped}
        && popped.next == null && popped.prev == null
    {
      if header.next == header {
        header.next.prev := header;
        return null;
      }
      popped := header.next;
      ghost var after := After(header, nodes, 0);
      assert after != popped && (after == header || after == nodes[1]);
      if popped.next == header {
        header.prev := header;
      }
      header.next := popped.next;
      popped.next := null;
      header.next.prev := header;
      popped.prev := null;
      assert header.next == after && after.prev == header;
      Exclude(0);
      assert old(nodes)[1..] == nodes;
    }

    method Remove(node: Node<T>, ghost k: nat)
      requires Valid() && k < |nodes| && nodes[k] == node
      modifies this`nodes, this`repr, header`next, header`prev, nodes`next, nodes`prev
      ensures Valid() && nodes == Without(old(nodes), k) && repr == old(repr) - {node}
      ensures node.next == null && node.prev == null
    {
      node.prev.next := node.next;
      node.next.prev := node.prev;
      node.prev, node.next := null, null;
      Exclude(k);
    }

    /** Inserts before `at`, or at the tail. */
    method Insert(node: Node<T>, at: Node?<T>, ghost k: nat)
      requires Valid() && node !in repr
      requires at != null ==> k < |nodes| && nodes[k] == at
      modifies this`nodes, this`repr, header`next, header`prev, nodes`next, nodes`prev, node`next, node`prev
      ensures Valid() && repr == old(repr) + {node}
      ensures at == null ==> nodes == old(nodes) + [node]
      ensures at != null ==> nodes == With(old(nodes), k, node)
    {
      if at == null {
        PushTail(node);
        return;
      }
      at.prev.next := node;
      node.prev := at.prev;
      node.next := at;
      at.prev := node;
      Include(k, node);
    }
  }
}
