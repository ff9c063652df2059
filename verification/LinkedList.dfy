/** The doubly linked list of the legacy helpers. The nodes of a list, in order, are its ghost view. */
module LinkedList {

  class Node {
    var data: nat
    var prev: Node?
    var next: Node?

    constructor (data: nat)
      ensures this.data == data
    {
      this.data := data;
    }
  }

  function Head(nodes: seq<Node>): Node? { if nodes == [] then null else nodes[0] }

  ghost predicate Linked(nodes: seq<Node>)
    reads nodes
  {
    && (forall i, j :: 0 <= i < j < |nodes| ==> nodes[i] != nodes[j])
    && (forall i {:trigger nodes[i].prev} :: 0 <= i < |nodes| ==>
       nodes[i].prev == if i == 0 then null else nodes[i - 1])
    && (forall i {:trigger nodes[i].next} :: 0 <= i < |nodes| ==>
       nodes[i].next == if i + 1 == |nodes| then null else nodes[i + 1])
  }

  ghost predicate Holds(nodes: seq<Node>, contents: seq<nat>)
    reads nodes
  {
    |contents| == |nodes| && forall i :: 0 <= i < |nodes| ==> nodes[i].data == contents[i]
  }

  function Without<T>(s: seq<T>, k: nat): (r: seq<T>)
    requires k < |s|
    ensures |r| == |s| - 1 && forall i :: 0 <= i < |r| ==> r[i] == s[if i < k then i else i + 1]
  {
    s[..k] + s[k + 1..]
  }

  function Inserted<T>(s: seq<T>, k: nat, x: T): (r: seq<T>)
    requires k <= |s|
    ensures |r| == |s| + 1 && forall i :: 0 <= i < |r| ==>
            r[i] == if i < k then s[i] else if i == k then x else s[i - 1]
  {
    s[..k] + [x] + s[k..]
  }

  /** Adding before `root`, which may stand in the middle of a list. */
  method ListAdd(root: Node?, element: Node, ghost nodes: seq<Node>, ghost k: nat) returns (r: Node?)
    requires Linked(nodes) && element !in nodes
    requires if nodes == [] then root == null && k == 0 else k < |nodes| && root == nodes[k]
    modifies element`prev, element`next, nodes
    ensures r == element && Linked(Inserted(nodes, k, element))
    ensures element.data == old(element.data) && forall n :: n in nodes ==> n.data == old(n.data)
  {
    if root != null {
      if root.prev != null {
        root.prev.next := element;
      }
      element.prev := root.prev;
      root.prev := element;
    } else {
      element.prev := null;
    }
    element.next := root;
    return element;
  }

  method ListDelete(root: Node?, element: Node, ghost nodes: seq<Node>, ghost k: nat) returns (r: Node?)
    requires Linked(nodes) && root == Head(nodes) && k < |nodes| && nodes[k] == element
    modifies nodes
    ensures r == Head(Without(nodes, k)) && Linked(Without(nodes, k)) && element !in Without(nodes, k)
    ensures forall n :: n in nodes ==> n.data == old(n.data)
  {
    r := root;
    if element.prev != null {
      element.prev.next := element.next;
    } else {
      r := element.next;
    }
    if element.next != null {
      element.next.prev := element.prev;
    }
  }

  function Reversed<T>(s: seq<T>): (r: seq<T>)
    ensures |r| == |s| && forall i :: 0 <= i < |s| ==> r[i] == s[|s| - 1 - i]
  {
    seq(|s|, i requires 0 <= i < |s| => s[|s| - 1 - i])
  }

  method ListReverse(list: Node?, ghost nodes: seq<Node>) returns (last: Node?)
    requires Linked(nodes) && list == Head(nodes)
    modifies nodes
    ensures Linked(Reversed(nodes)) && last == Head(Reversed(nodes))
    ensures forall n :: n in nodes ==> n.data == old(n.data)
  {
    var root := list;
    last := root;
    ghost var k := 0;
    while root != null
      invariant 0 <= k <= |nodes| && root == (if k == |nodes| then null else nodes[k])
      invariant last == if k == 0 then list else nodes[k - 1]
      invariant forall i {:trigger nodes[i].next} :: 0 <= i < k ==>
                nodes[i].next == if i == 0 then null else nodes[i - 1]
      invariant forall i {:trigger nodes[i].prev} :: 0 <= i < k ==>
                nodes[i].prev == if i + 1 == |nodes| then null else nodes[i + 1]
      invariant forall i {:trigger nodes[i].next} :: k <= i < |nodes| ==>
                nodes[i].next == if i + 1 == |nodes| then null else nodes[i + 1]
      invariant forall i {:trigger nodes[i].prev} :: k <= i < |nodes| ==>
                nodes[i].prev == if i == 0 then null else nodes[i - 1]
      invariant forall n :: n in nodes ==> n.data == old(n.data)
      decreases |nodes| - k
    {
      last := root;
      root := root.next;
      last.next := last.prev;
      last.prev := root;
      k := k + 1;
    }
  }
}
