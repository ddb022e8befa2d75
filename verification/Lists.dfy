/** The intrusive doubly linked list of include/geekos/list.h, on which the thread queues, the free page list, the
    request queues and the buffer list are built. */
module Lists {
  import opened Seqs

  class Node {
    var prev: Node?
    var next: Node?

    constructor () {
      prev := null;
      next := null;
    }
  }

  function Before(nodes: seq<Node>, i: nat): Node?
    requires i < |nodes|
  {
    if i == 0 then null else nodes[i - 1]
  }

  function After(nodes: seq<Node>, i: nat): Node?
    requires i < |nodes|
  {
    if i == |nodes| - 1 then null else nodes[i + 1]
  }

  ghost predicate LinkedAt(nodes: seq<Node>, i: nat)
    reads nodes
  {
    i < |nodes| ==> nodes[i].prev == Before(nodes, i) && nodes[i].next == After(nodes, i)
  }

  /** The links of consecutive nodes agree, and the ends have none. */
  ghost predicate Linked(nodes: seq<Node>)
    reads nodes
  {
    forall i :: 0 <= i < |nodes| ==> LinkedAt(nodes, i)
  }

  lemma Differ(nodes: seq<Node>, i: nat, j: nat)
    requires Distinct(nodes) && i < |nodes| && j < |nodes| && i != j
    ensures nodes[i] != nodes[j]
  {
  }

  lemma OneMore(node: Node, nodes: seq<Node>)
    requires Distinct(nodes) && node !in nodes
    ensures Distinct([node] + nodes) && Distinct(nodes + [node])
  {
  }

  class List {
    var head: Node?
    var tail: Node?
    /** What the list holds, front first. */
    ghost var nodes: seq<Node>

    ghost predicate Valid()
      reads this, nodes
    {
      && Distinct(nodes) && Linked(nodes)
      && (if nodes == [] then head == null && tail == null else head == nodes[0] && tail == nodes[|nodes| - 1])
    }

    constructor ()
      ensures Valid() && nodes == []
    {
      head := null;
      tail := null;
      nodes := [];
    }

    /** The membership loop follows the links until they end. */
    method IsMember(node: Node) returns (yes: bool)
      requires Valid()
      ensures yes <==> node in nodes
    {
      var cur := head;
      ghost var i := 0;
      assert nodes == [] <==> head == null;
      while cur != null
        invariant 0 <= i <= |nodes| && cur == (if i < |nodes| then nodes[i] else null)
        invariant node !in nodes[..i]
        decreases |nodes| - i
      {
        if cur == node { return true; }
        assert LinkedAt(nodes, i);
        cur := cur.next;
        i := i + 1;
      }
      assert nodes[..i] == nodes;
      return false;
    }

    method AddToFront(node: Node)
      requires Valid() && node !in nodes
      modifies this, node, nodes
      ensures Valid() && nodes == [node] + old(nodes)
    {
      hide Distinct;
      ghost var was := nodes;
      OneMore(node, was);
      assert was != [] ==> was[0] in nodes;
      node.prev := null;
      if head == null {
        head := node;
        tail := node;
        node.next := null;
      } else {
        head.prev := node;
        node.next := head;
        head := node;
      }
      nodes := [node] + nodes;
      forall i | 0 <= i < |nodes| ensures LinkedAt(nodes, i) {
        if i > 0 {
          assert old(LinkedAt(was, i - 1)) && was[i - 1] in was;
          if i > 1 { Differ(was, 0, i - 1); }
        }
      }
    }

    method AddToBack(node: Node)
      requires Valid() && node !in nodes
      modifies this, node, nodes
      ensures Valid() && nodes == old(nodes) + [node]
    {
      hide Distinct;
      ghost var was := nodes;
      OneMore(node, was);
      assert was != [] ==> was[|was| - 1] in nodes;
      node.next := null;
      if tail == null {
        head := node;
        tail := node;
        node.prev := null;
      } else {
        tail.next := node;
        node.prev := tail;
        tail := node;
      }
      nodes := nodes + [node];
      forall i | 0 <= i < |nodes| ensures LinkedAt(nodes, i) {
        if i < |was| {
          assert old(LinkedAt(was, i)) && was[i] in was;
          if i < |was| - 1 { Differ(was, i, |was| - 1); }
        }
      }
    }

    /** Moves all of other to the back of this list. */
    method Append(other: List)
      requires Valid() && other.Valid() && other != this
      requires forall n :: n in nodes ==> n !in other.nodes
      modifies this, other, nodes, other.nodes
      ensures Valid() && other.Valid() && nodes == old(nodes) + old(other.nodes) && other.nodes == []
    {
      hide Distinct;
      ghost var a, b := nodes, other.nodes;
      DistinctSum(a, b);
      assert a != [] ==> a[|a| - 1] in nodes;
      assert b != [] ==> b[0] in other.nodes;
      if other.head != null {
        if head == null {
          head := other.head;
          tail := other.tail;
        } else {
          other.head.prev := tail;
          tail.next := other.head;
          tail := other.tail;
        }
      }
      nodes := nodes + other.nodes;
      other.head := null;
      other.tail := null;
      other.nodes := [];
      forall i | 0 <= i < |nodes| ensures LinkedAt(nodes, i) {
        if i < |a| {
          assert old(LinkedAt(a, i)) && a[i] in a;
          if i < |a| - 1 { Differ(a, i, |a| - 1); }
        } else {
          assert old(LinkedAt(b, i - |a|)) && b[i - |a|] in b;
          if i > |a| { Differ(b, 0, i - |a|); }
        }
      }
      assert Distinct(other.nodes) by { Nothing(); }
    }

    method RemoveFromFront() returns (node: Node)
      requires Valid() && nodes != []
      modifies this, nodes
      ensures Valid() && old(nodes) == [node] + nodes
    {
      hide Distinct, Without;
      ghost var was := nodes;
      OneLess(was, 0);
      FrontAndRest(was);
      assert LinkedAt(was, 0);
      assert head.next == After(was, 0);
      assert |was| > 1 ==> was[1] in nodes;
      node := head;
      head := head.next;
      if head == null {
        tail := null;
      } else {
        head.prev := null;
      }
      nodes := Without(was, 0);
      forall i | 0 <= i < |nodes| ensures LinkedAt(nodes, i) {
        ghost var k := i + 1;
        assert nodes[i] == was[k];
        assert old(LinkedAt(was, k)) && was[k] in was;
        if k != 1 { Differ(was, k, 1); }
      }
      assert |nodes| == |was| - 1 && (nodes != [] ==> nodes[0] == was[1] && nodes[|nodes| - 1] == was[|was| - 1]);
    }

    /** Unlinks a member wherever it is; i, which only the proof needs, says where. */
    method Remove(node: Node, ghost i: nat)
      requires Valid() && i < |nodes| && nodes[i] == node
      modifies this, nodes
      ensures Valid() && nodes == Without(old(nodes), i) && node !in nodes
    {
      hide Distinct;
      ghost var was := nodes;
      OneLess(was, i);
      assert LinkedAt(was, i);
      assert i > 0 ==> was[i - 1] in nodes;
      assert i < |was| - 1 ==> was[i + 1] in nodes;
      if node.prev != null {
        node.prev.next := node.next;
      } else {
        head := node.next;
      }
      if node.next != null {
        node.next.prev := node.prev;
      } else {
        tail := node.prev;
      }
      nodes := Without(nodes, i);
      forall j | 0 <= j < |nodes| ensures LinkedAt(nodes, j) {
        ghost var k := if j < i then j else j + 1;
        assert old(LinkedAt(was, k)) && was[k] in was && nodes[j] == was[k];
        if i > 0 && k != i - 1 { Differ(was, k, i - 1); }
        if i < |was| - 1 && k != i + 1 { Differ(was, k, i + 1); }
      }
    }
  }

  lemma Nothing()
    ensures Distinct<Node>([])
  {
  }

  lemma FrontAndRest(nodes: seq<Node>)
    requires nodes != []
    ensures nodes == [nodes[0]] + Without(nodes, 0)
  {
  }

  lemma OneLess(nodes: seq<Node>, i: nat)
    requires Distinct(nodes) && i < |nodes|
    ensures Distinct(Without(nodes, i)) && nodes[i] !in Without(nodes, i)
  {
  }

  /** Links and ends determine the list: nothing else can be reached from the same head. */
  lemma {:induction false} OneList(a: seq<Node>, b: seq<Node>, k: nat)
    requires Linked(a) && Linked(b) && a != [] && b != [] && a[0] == b[0] && k <= |a| && k <= |b|
    ensures a[..k] == b[..k] && (|a| == |b| || k < |a| || k < |b|)
    decreases k
  {
    if k > 1 {
      OneList(a, b, k - 1);
      assert a[..k - 1][k - 2] == b[..k - 1][k - 2];
      assert LinkedAt(a, k - 2) && LinkedAt(b, k - 2);
      assert After(a, k - 2) == After(b, k - 2);
      assert a[..k] == a[..k - 1] + [a[k - 1]] && b[..k] == b[..k - 1] + [b[k - 1]];
    }
    if k > 0 {
      assert a[..k][k - 1] == b[..k][k - 1];
      assert LinkedAt(a, k - 1) && LinkedAt(b, k - 1);
      assert After(a, k - 1) == After(b, k - 1);
    }
  }
}
