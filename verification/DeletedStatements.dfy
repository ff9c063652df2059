/** The addresses of the statements freed last, so that a late SQLCancel finds out. */
module DeletedStatements {
  import opened LinkedList

  const MAX_TO_KEEP := 50

  /** Remembering an address: it comes first, and the list is cut to its maximal length. */
  function Remembered(s: seq<nat>, x: nat): seq<nat> {
    [x] + if |s| < MAX_TO_KEEP then s else s[..MAX_TO_KEEP - 1]
  }

  /** The first occurrence of an address, or the length. */
  function IndexOf(s: seq<nat>, x: nat): (k: nat)
    ensures k <= |s| && (k < |s| ==> s[k] == x) && forall i :: 0 <= i < k ==> s[i] != x
  {
    if s == [] || s[0] == x then 0 else 1 + IndexOf(s[1..], x)
  }

  function Forgotten(s: seq<nat>, x: nat): seq<nat> {
    if IndexOf(s, x) < |s| then Without(s, IndexOf(s, x)) else s
  }

  ghost predicate Distinct(s: seq<nat>) { forall i, j :: 0 <= i < j < |s| ==> s[i] != s[j] }

  lemma RememberedKeepsDistinct(s: seq<nat>, x: nat)
    requires Distinct(s) && x !in s && |s| <= MAX_TO_KEEP
    ensures Distinct(Remembered(s, x)) && |Remembered(s, x)| <= MAX_TO_KEEP
  {
  }

  /** Of distinct addresses exactly the one is forgotten. */
  lemma ForgottenExactly(s: seq<nat>, x: nat)
    requires Distinct(s)
    ensures Distinct(Forgotten(s, x)) && forall y :: y in Forgotten(s, x) <==> y in s && y != x
  {
    var k, f := IndexOf(s, x), Forgotten(s, x);
    if k < |s| {
      forall y | y in s && y != x ensures y in f {
        var i :| 0 <= i < |s| && s[i] == y;
        assert f[if i < k then i else i - 1] == y;
      }
    }
  }

  class DeletedList {
    var root: Node?
    ghost var nodes: seq<Node>
    ghost var contents: seq<nat>

    constructor ()
      ensures Valid() && contents == []
    {
      root, nodes, contents := null, [], [];
    }

    ghost predicate Valid()
      reads this, nodes
    {
      Linked(nodes) && Holds(nodes, contents) && root == Head(nodes) && |nodes| <= MAX_TO_KEEP
    }

    /** The node that holds the address. */
    method Check(address: nat) returns (found: Node?, ghost k: nat)
      requires Valid()
      ensures k == IndexOf(contents, address)
      ensures found == if k < |nodes| then nodes[k] else null
    {
      var item := root;
      k := 0;
      while item != null
        invariant 0 <= k <= |nodes| && item == (if k == |nodes| then null else nodes[k])
        invariant forall i :: 0 <= i < k ==> contents[i] != address
        decreases |nodes| - k
      {
        if item.data == address {
          return item, k;
        }
        item, k := item.next, k + 1;
      }
      return null, k;
    }

    method Remove(address: nat) returns (removed: bool)
      requires Valid()
      modifies this, nodes
      ensures Valid() && removed == (address in old(contents))
      ensures contents == Forgotten(old(contents), address)
      ensures forall n :: n in nodes ==> n in old(nodes)
    {
      hide Linked;
      var found;
      ghost var k;
      found, k := Check(address);
      removed := found != null;
      if removed {
        root := ListDelete(root, found, nodes, k);
        nodes, contents := Without(nodes, k), Without(contents, k);
      }
    }

    /** The node in the last place of a full list. */
    method FindLastKept() returns (item: Node?)
      requires Valid()
      ensures item == if |nodes| == MAX_TO_KEEP then nodes[MAX_TO_KEEP - 1] else null
    {
      var current := root;
      var count := 0;
      while current != null
        invariant 0 <= count <= |nodes| && current == (if count == |nodes| then null else nodes[count])
        invariant count < MAX_TO_KEEP
        decreases |nodes| - count
      {
        count := count + 1;
        if count == MAX_TO_KEEP {
          return current;
        }
        current := current.next;
      }
      return null;
    }

    /** The node in the last place leaves the list. */
    method DropLast(item: Node)
      requires Valid() && |nodes| == MAX_TO_KEEP && item == nodes[MAX_TO_KEEP - 1]
      modifies this`nodes, this`contents, nodes
      ensures Valid() && item !in nodes && |nodes| == MAX_TO_KEEP - 1
      ensures nodes == old(nodes)[..MAX_TO_KEEP - 1] && contents == old(contents)[..MAX_TO_KEEP - 1]
    {
      hide Linked;
      ghost var rest := Without(nodes, MAX_TO_KEEP - 1);
      var _ := ListDelete(root, item, nodes, MAX_TO_KEEP - 1);
      nodes, contents := rest, Without(contents, MAX_TO_KEEP - 1);
    }

    method AddFirst(item: Node, address: nat)
      requires Valid() && |nodes| < MAX_TO_KEEP && item !in nodes
      modifies this, nodes, item
      ensures Valid() && nodes == [item] + old(nodes) && contents == [address] + old(contents)
    {
      hide Linked;
      item.data := address;
      root := ListAdd(root, item, nodes, 0);
      nodes, contents := Inserted(nodes, 0, item), Inserted(contents, 0, address);
    }

    /** `memory` is false if there is none for a new node; then nothing is remembered. */
    method Remember(address: nat, memory: bool)
      requires Valid()
      modifies this, nodes
      ensures Valid() && forall n :: n in nodes ==> n in old(nodes) || fresh(n)
      ensures contents == if memory || |old(nodes)| == MAX_TO_KEEP then Remembered(old(contents), address)
                          else old(contents)
    {
      hide Linked;
      var item := FindLastKept();
      if item != null {
        DropLast(item);
        AddFirst(item, address);
      } else if memory {
        item := new Node(address);
        AddFirst(item, address);
      }
    }
  }
}
