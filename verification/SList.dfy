/**
  The circular singly-linked list (framework/src/fwk_slist.c): the header of a list is a node whose `next` is the
  head of the list; `tail` is the last node, or the header when the list is empty.
*/
module SList {
  import opened Circle

  class Node<T> {
    var next: Node?<T>
    var data: T

    constructor (data: T)
      ensures this.data == data && next == null
    {
      this.data, next := data, null;
    }
  }

  ghost predicate Linked<T>(header: Node<T>, tail: Node<T>, nodes: seq<Node<T>>)
    reads header, nodes
  {
    && header.next == After(header, nodes, -1)
    && tail == Before(header, nodes, |nodes|)
    && (forall i {:trigger nodes[i].next} :: 0 <= i < |nodes| ==> nodes[i].next == After(header, nodes, i))
  }

  /** The circle right after `node` was linked in before position `k`. */
  ghost predicate SplicedIn<T>(header: Node<T>, nodes: seq<Node<T>>, k: nat, node: Node<T>)
    requires k <= |nodes|
    reads header, nodes, node
  {
    var p, n := Before(header, nodes, k), After(header, nodes, k - 1);
    && node.next == n && p.next == node
    && (header != p ==> header.next == After(header, nodes, -1))
    && (forall i {:trigger nodes[i].next} :: 0 <= i < |nodes| && nodes[i] != p ==>
          nodes[i].next == After(header, nodes, i))
  }

  lemma SplicedInLinked<T>(header: Node<T>, nodes: seq<Node<T>>, k: nat, node: Node<T>)
    requires k <= |nodes| && Distinct(header, nodes) && SplicedIn(header, nodes, k, node)
    ensures var m := With(nodes, k, node); Linked(header, Before(header, m, |m|), m)
  {
    var m := With(nodes, k, node);
    forall i: nat | i < |m|
      ensures m[i].next == After(header, m, i)
    {
      assert i != k ==> m[i] == nodes[if i < k then i else i - 1];
    }
  }

  /** The circle right after position `k` was bridged over. */
  ghost predicate SplicedOut<T>(header: Node<T>, nodes: seq<Node<T>>, k: nat)
    requires k < |nodes|
    reads header, nodes
  {
    var p := Before(header, nodes, k);
    && p.next == After(header, nodes, k)
    && (header != p ==> header.next == After(header, nodes, -1))
    && (forall i {:trigger nodes[i].next} :: 0 <= i < |nodes| && nodes[i] != p && i != k ==>
          nodes[i].next == After(header, nodes, i))
  }

  lemma SplicedOutLinked<T>(header: Node<T>, nodes: seq<Node<T>>, k: nat)
    requires k < |nodes| && Distinct(header, nodes) && SplicedOut(header, nodes, k)
    ensures var m := Without(nodes, k); Linked(header, Before(header, m, |m|), m)
  {
    var m := Without(nodes, k);
    forall i: nat | i < |m|
      ensures m[i].next == After(header, m, i)
    {
      assert m[i] == nodes[if i < k then i else i + 1];
    }
  }

  class List<T> {
    const header: Node<T>
    var tail: Node<T>
    /** The nodes of the list in order. */
    ghost var nodes: seq<Node<T>>
    ghost var repr: set<object>

    /** The representation is this list, its header and its nodes, all distinct. */
    ghost predicate Shape()
      reads this
    {
      && this in repr && header in repr
      && (forall i :: 0 <= i < |nodes| ==> nodes[i] in repr)
      && (forall o :: o in repr ==> o == this || o == header || o in nodes)
      && Distinct(header, nodes)
    }

    ghost predicate Valid()
      reads this, repr
    {
      Shape() && Linked(header, tail, nodes)
    }

    constructor (dummy: T)
      ensures Valid() && fresh(repr) && nodes == []
    {
      var h := new Node(dummy);
      header, tail, nodes := h, h, [];
      new;
      h.next := h;
      repr := {this, h};
    }

    /** Records that `node` has been linked in before position `k`. */
    ghost method Include(k: nat, node: Node<T>)
      requires Shape() && k <= |nodes| && node !in repr && SplicedIn(header, nodes, k, node)
      requires tail == if k == |nodes| then node else Before(header, nodes, |nodes|)
      modifies this`nodes, this`repr
      ensures Valid() && nodes == With(old(nodes), k, node) && repr == old(repr) + {node}
    {
      WithDistinct(header, nodes, k, node);
      SplicedInLinked(header, nodes, k, node);
      nodes, repr := With(nodes, k, node), repr + {node};
    }

    /** Records that position `k` has been bridged over. */
    ghost method Exclude(k: nat)
      requires Shape() && k < |nodes| && SplicedOut(header, nodes, k)
      requires tail == if k + 1 == |nodes| then Before(header, nodes, k) else Before(header, nodes, |nodes|)
      modifies this`nodes, this`repr
      ensures Valid() && nodes == Without(old(nodes), k) && repr == old(repr) - {old(nodes[k])}
    {
      WithoutDistinct(header, nodes, k);
      SplicedOutLinked(header, nodes, k);
      nodes, repr := Without(nodes, k), repr - {nodes[k]};
    }

    method IsEmpty() returns (r: bool)
      requires Valid()
      ensures r <==> nodes == []
    {
      r := header.next == header;
    }

    /** The first node, or null. */
    method Head() returns (r: Node?<T>)
      requires Valid()
      ensures r == if nodes == [] then null else nodes[0]
    {
      r := if header.next == header then null else header.next;
    }

    /** The node after `node`, or null. */
    method Next(node: Node<T>, ghost k: nat) returns (r: Node?<T>)
      requires Valid() && k < |nodes| && nodes[k] == node
      ensures r == if k + 1 == |nodes| then null else nodes[k + 1]
    {
      r := if node.next == header then null else node.next;
    }

    method PushHead(node: Node<T>)
      requires Valid() && node !in repr
      modifies this, header`next, node`next
      ensures Valid() && nodes == [node] + old(nodes) && repr == old(repr) + {node}
    {
      node.next := header.next;
      header.next := node;
      if tail == header {
        tail := node;
      }
      Include(0, node);
      assert [node] + old(nodes) == nodes;
    }

    method PushTail(node: Node<T>)
      requires Valid() && node !in repr
      modifies this, header`next, nodes`next, node`next
      ensures Valid() && nodes == old(nodes) + [node] && repr == old(repr) + {node}
    {
      node.next := header;
      tail.next := node;
      tail := node;
      Include(|nodes|, node);
      assert old(nodes) + [node] == nodes;
    }

    method PopHead() returns (popped: Node?<T>)
      requires Valid()
      modifies this, header`next, nodes`next
      ensures Valid()
      ensures old(nodes) == [] ==> popped == null && nodes == [] && repr == old(repr)
      ensures old(nodes) != [] ==>
        && popped == old(nodes)[0] && nodes == old(nodes)[1..] && repr == old(repr) - {popped}
        && popped.next == null
    {
      if header.next == header {
        return null;
      }
      popped := header.next;
      if popped.next == header {
        tail := header;
      }
      header.next := popped.next;
      popped.next := null;
      Exclude(0);
      assert old(nodes)[1..] == nodes;
    }

    /**
      Unlinks `node`, which was at position `k`; a node that is not in the list leaves it unchanged, with `k` the
      length of the list.
    */
    method Remove(node: Node<T>) returns (ghost k: nat)
      requires Valid()
      modifies this, header`next, nodes`next
      ensures Valid()
      ensures node in old(nodes) ==>
        && k < |old(nodes)| && old(nodes)[k] == node
        && nodes == Without(old(nodes), k) && repr == old(repr) - {node} && node.next == null
      ensures node !in old(nodes) ==> k == |nodes| && nodes == old(nodes) && repr == old(repr)
    {
      var iter := header;
      k := 0;
      while iter.next != header
        invariant k <= |nodes| && iter == Before(header, nodes, k)
        invariant node !in nodes[..k] && Valid() && nodes == old(nodes) && repr == old(repr)
        decreases |nodes| - k
      {
        assert k < |nodes| && iter.next == nodes[k];
        if iter.next == node {
          iter.next := node.next;
          if node.next == header {
            tail := iter;
          }
          node.next := null;
          Exclude(k);
          return;
        }
        iter, k := iter.next, k + 1;
      }
      assert k == |nodes|;
    }

    method Contains(node: Node<T>) returns (r: bool)
      requires Valid()
      ensures r <==> node in nodes
    {
      var iter := header;
      ghost var i := 0;
      while iter.next != header
        invariant 0 <= i <= |nodes| && iter == Before(header, nodes, i)
        invariant node !in nodes[..i]
        decreases |nodes| - i
      {
        assert i < |nodes| && iter.next == nodes[i];
        if iter.next == node {
          return true;
        }
        iter, i := iter.next, i + 1;
      }
      assert i == |nodes|;
      r := false;
    }
  }
}
