/** The proxy's doubly linked connection list between two dummy nodes. */
module FdLists {
  import opened ProxyTypes

  /** The list without the element at k. */
  function RemoveAt<T>(s: seq<T>, k: nat): seq<T>
    requires k < |s|
  {
    s[..k] + s[k + 1..]
  }

  /** The list with x in front of its last element. */
  function InsertBeforeLast<T>(s: seq<T>, x: T): seq<T>
    requires |s| >= 1
  {
    s[..|s| - 1] + [x] + s[|s| - 1..]
  }

  lemma MembersOfInsert<T>(s: seq<T>, x: T)
    requires |s| >= 1
    ensures forall y :: y in InsertBeforeLast(s, x) <==> y in s || y == x
  {
    assert s == s[..|s| - 1] + s[|s| - 1..];
  }

  lemma MembersOfRemove<T>(s: seq<T>, k: nat)
    requires k < |s| && forall i, j | 0 <= i < j < |s| :: s[i] != s[j]
    ensures forall y :: y in RemoveAt(s, k) <==> y in s && y != s[k]
  {
    assert s == s[..k] + [s[k]] + s[k + 1..];
  }

  class FdList {
    var front: FdNode
    var rear: FdNode
    ghost var nodes: seq<FdNode>

    /** nodes is the next chain from front, and the prev chain from rear is its mirror. */
    ghost predicate Valid()
      reads this, nodes`prev, nodes`next
    {
      && |nodes| >= 2 && nodes[0] == front && nodes[|nodes| - 1] == rear
      && (forall i, j | 0 <= i < j < |nodes| :: nodes[i] != nodes[j])
      && front.prev == null && rear.next == null
      && (forall i {:trigger nodes[i].next} | 0 <= i < |nodes| - 1 :: nodes[i].next == nodes[i + 1])
      && (forall i {:trigger nodes[i].prev} | 1 <= i < |nodes| :: nodes[i].prev == nodes[i - 1])
    }

    constructor ()
      ensures Valid() && fresh(nodes) && |nodes| == 2
      ensures front.kind == rear.kind == Dummy && front.status == rear.status == Idle
      ensures front.cacheNode == rear.cacheNode == null && front.backup == rear.backup == null
    {
      var frontDummy := new FdNode(null, null, -1, Dummy, Idle, null);
      var rearDummy := new FdNode(null, null, -1, Dummy, Idle, null);
      frontDummy.next := rearDummy;
      rearDummy.prev := frontDummy;
      front, rear, nodes := frontDummy, rearDummy, [frontDummy, rearDummy];
    }

    method Append(node: FdNode)
      requires Valid() && node !in nodes
      modifies this`nodes, node`prev, node`next, rear`prev, rear.prev`next
      ensures Valid() && nodes == InsertBeforeLast(old(nodes), node)
      ensures front == old(front) && rear == old(rear)
      ensures forall n :: n in nodes <==> n in old(nodes) || n == node
    {
      node.prev := rear.prev;
      node.next := rear;
      rear.prev.next := node;
      rear.prev := node;
      MembersOfInsert(nodes, node);
      nodes := InsertBeforeLast(nodes, node);
    }

    method Remove(node: FdNode, ghost k: nat)
      requires Valid() && 1 <= k < |nodes| - 1 && nodes[k] == node
      modifies this`nodes, node`prev, node`next, node.prev`next, node.next`prev
      ensures Valid() && nodes == RemoveAt(old(nodes), k)
      ensures front == old(front) && rear == old(rear)
      ensures forall n :: n in nodes <==> n in old(nodes) && n != node
    {
      node.prev.next := node.next;
      node.next.prev := node.prev;
      node.prev := null;
      node.next := null;
      MembersOfRemove(nodes, k);
      nodes := RemoveAt(nodes, k);
    }
  }
}
