/** The intrusive doubly linked queue of webserver/fast_fifo.h: real nodes, a sentinel at the
    tail, and removal from the middle.  `nodes` is the ghost sequence the list refines. */
module FastFifo {
  import opened Wrappers
  import opened Sequences

  class Node<T> {
    const data: Option<T> // the C++ field is a pointer; the sentinel carries NULL
    var before: Node?<T>
    var next: Node?<T>

    constructor (data: Option<T>)
      ensures this.data == data && before == null && next == null
    {
      this.data := data;
      before := null;
      next := null;
    }
  }

  /** The data of a run of list nodes. */
  ghost function Payloads<T>(nodes: seq<Node<T>>): (s: seq<T>)
    requires forall i :: 0 <= i < |nodes| ==> nodes[i].data.Some?
    ensures |s| == |nodes|
    ensures forall i :: 0 <= i < |s| ==> s[i] == nodes[i].data.value
  {
    seq(|nodes|, i requires 0 <= i < |nodes| => nodes[i].data.value)
  }

  lemma PayloadsAppend<T>(nodes: seq<Node<T>>, node: Node<T>)
    requires forall i :: 0 <= i < |nodes| ==> nodes[i].data.Some?
    requires node.data.Some?
    ensures Payloads(nodes + [node]) == Payloads(nodes) + [node.data.value]
  {
  }

  lemma PayloadsRemoveAt<T>(nodes: seq<Node<T>>, at: nat)
    requires forall i :: 0 <= i < |nodes| ==> nodes[i].data.Some?
    requires at < |nodes|
    ensures Payloads(RemoveAt(nodes, at)) == RemoveAt(Payloads(nodes), at)
  {
  }

  /** The nodes are linked in this order, and then the sentinel. */
  ghost predicate Linked<T>(nodes: seq<Node<T>>, tail: Node<T>)
    reads nodes, tail
  {
    && tail.next == null
    && tail.before == (if nodes == [] then null else nodes[|nodes| - 1])
    && (forall i {:trigger nodes[i].next} ::
          0 <= i < |nodes| ==> nodes[i].next == if i + 1 < |nodes| then nodes[i + 1] else tail)
    && (forall i {:trigger nodes[i].before} ::
          0 <= i < |nodes| ==> nodes[i].before == if i == 0 then null else nodes[i - 1])
  }

  class FastFifo<T> {
    var tail: Node<T>
    var head: Node<T>
    ghost var nodes: seq<Node<T>> // every linked node except the sentinel, front first
    ghost var Repr: set<object>   // the list, its sentinel and every node not yet deleted

    ghost predicate Valid()
      reads this, Repr
    {
      && this in Repr && tail in Repr
      && (forall i {:trigger nodes[i]} :: 0 <= i < |nodes| ==> nodes[i] in Repr && nodes[i].data.Some?)
      && tail.data.None?
      && Distinct(nodes)
      && head == (if nodes == [] then tail else nodes[0])
      && Linked(nodes, tail)
    }

    /** The queue's abstract value. */
    ghost function Contents(): (s: seq<T>)
      reads this, Repr
      requires Valid()
      ensures |s| == |nodes|
    {
      Payloads(nodes)
    }

    constructor ()
      ensures Valid() && fresh(Repr) && nodes == [] && Contents() == []
    {
      var sentinel := new Node<T>(None);
      tail := sentinel;
      head := sentinel;
      nodes := [];
      Repr := {this, sentinel};
    }

    method Push(data: T) returns (newNode: Node<T>)
      requires Valid()
      modifies Repr
      ensures Valid() && Repr == old(Repr) + {newNode}
      ensures fresh(newNode) && newNode.data == Some(data)
      ensures nodes == old(nodes) + [newNode]
      ensures Contents() == old(Contents()) + [data]
    {
      newNode := new Node<T>(Some(data));
      newNode.before := tail.before;
      newNode.next := tail;
      if tail.before != null {
        forall i | 0 <= i < |nodes| - 1
          ensures nodes[i] != nodes[|nodes| - 1]
        {
          DistinctAt(nodes, i, |nodes| - 1);
        }
        tail.before.next := newNode;
      }
      tail.before := newNode;
      if head == tail {
        head := newNode;
      }
      AppendDistinct(nodes, newNode);
      PayloadsAppend(nodes, newNode);
      Repr := Repr + {newNode};
      nodes := nodes + [newNode];
    }

    method Pop() returns (data: Option<T>)
      requires Valid()
      modifies Repr
      ensures Valid() && Repr == if old(nodes) == [] then old(Repr) else old(Repr) - {old(nodes)[0]}
      ensures old(nodes) == [] <==> data.None?
      ensures data.None? ==> nodes == [] && Contents() == []
      ensures data.Some? ==> nodes == old(nodes)[1..] && Contents() == old(Contents())[1..]
      ensures data.Some? ==> data.value == old(Contents())[0] && data == old(nodes)[0].data
    {
      data := None;
      if head != tail {
        data := head.data;
        assert head == nodes[0];
        RemoveNode(head, 0);
      }
    }

    /** removeNode's pointer updates. */
    method Bypass(node: Node<T>, ghost at: nat)
      requires at < |nodes| && nodes[at] == node
      requires Linked(nodes, tail) && Distinct(nodes) && tail !in nodes && head == nodes[0]
      requires this as object != tail && forall i :: 0 <= i < |nodes| ==> nodes[i] as object != this
      modifies this`head, nodes, tail
      ensures Linked(RemoveAt(nodes, at), tail)
      ensures head == if at > 0 then nodes[0] else if |nodes| == 1 then tail else nodes[1]
    {
      var before := node.before;
      var next := node.next;
      AllDistinctAt(nodes, at);
      if at > 0 {
        AllDistinctAt(nodes, at - 1);
      }
      if at + 1 < |nodes| {
        AllDistinctAt(nodes, at + 1);
      }
      if before == null {
        head := next;
      } else {
        before.next := next;
      }
      next.before := before;
    }

    /** `at` is where the node sits; the C++ caller promises that it sits somewhere.  The node is deleted: it
        leaves Repr, and with it every list, so nobody can remove it again. */
    method RemoveNode(node: Node<T>, ghost at: nat)
      requires Valid()
      requires at < |nodes| && nodes[at] == node
      modifies Repr
      ensures Valid() && Repr == old(Repr) - {node} && node !in nodes
      ensures nodes == RemoveAt(old(nodes), at)
      ensures Contents() == RemoveAt(old(Contents()), at)
    {
      RemoveDistinct(nodes, at);
      PayloadsRemoveAt(nodes, at);
      Bypass(node, at);
      nodes := RemoveAt(nodes, at);
      Repr := Repr - {node};
    }
  }
}
