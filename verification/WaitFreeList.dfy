/** The doubly linked list of WaitFreeList.hpp: `header` is the node added last, `left` leads to
    older nodes, and traversal goes left. */
module WaitFreeList {
  class Node<T> {
    var left: Node?<T>
    var item: T
    var right: Node?<T>

    constructor (left: Node?<T>, item: T, right: Node?<T>)
      ensures this.left == left && this.item == item && this.right == right
    {
      this.left, this.item, this.right := left, item, right;
    }
  }

  ghost function Items<T>(nodes: seq<Node<T>>): (items: seq<T>)
    reads nodes
    ensures |items| == |nodes|
  {
    seq(|nodes|, i requires 0 <= i < |nodes| reads nodes => nodes[i].item)
  }

  lemma ItemAt<T>(nodes: seq<Node<T>>, i: nat)
    requires i < |nodes|
    ensures Items(nodes)[i] == nodes[i].item
  {
  }

  function Reverse<T>(s: seq<T>): (r: seq<T>)
    ensures |r| == |s| && forall i :: 0 <= i < |s| ==> r[i] == s[|s| - 1 - i]
  {
    if s == [] then [] else Reverse(s[1..]) + [s[0]]
  }

  function Without<T>(s: seq<T>, i: nat): seq<T>
    requires i < |s|
  {
    s[..i] + s[i + 1..]
  }

  /** `nodes` are the first `k` of `all` followed by `kept`. */
  ghost predicate Joined<T>(nodes: seq<T>, all: seq<T>, k: nat, kept: seq<T>) {
    && k <= |all| && |nodes| == k + |kept|
    && (forall i :: 0 <= i < k ==> nodes[i] == all[i])
    && (forall i :: k <= i < |nodes| ==> nodes[i] == kept[i - k])
  }

  class WaitFreeList<T(==)> {
    var header: Node?<T>
    ghost var nodes: seq<Node<T>> // the surviving nodes, oldest first
    ghost var repr: set<Node<T>>  // every node ever added

    /** The links of node `i` are its two neighbours. */
    ghost predicate Linked(i: nat)
      requires i < |nodes|
      reads this, nodes
    {
      && nodes[i].left == (if i == 0 then null else nodes[i - 1])
      && nodes[i].right == (if i == |nodes| - 1 then null else nodes[i + 1])
    }

    /** No node occurs twice, and all links are right. */
    ghost predicate Valid()
      reads this, repr
    {
      && (forall i :: 0 <= i < |nodes| ==> nodes[i] in repr)
      && (forall i, j :: 0 <= i < j < |nodes| ==> nodes[i] != nodes[j])
      && (forall i: nat :: i < |nodes| ==> Linked(i))
      && header == (if nodes == [] then null else nodes[|nodes| - 1])
    }

    constructor ()
      ensures Valid() && nodes == [] && repr == {}
    {
      header, nodes, repr := null, [], {};
    }

    method Clear()
      modifies this
      ensures Valid() && nodes == []
    {
      header, nodes := null, [];
    }

    method Add(item: T)
      requires Valid()
      modifies this, repr
      ensures Valid() && |nodes| == |old(nodes)| + 1 && nodes[..|nodes| - 1] == old(nodes)
      ensures fresh(nodes[|nodes| - 1]) && nodes[|nodes| - 1].item == item
      ensures old(repr) <= repr && fresh(repr - old(repr))
      ensures forall n <- old(repr) :: n.item == old(n.item)
    {
      if header == null {
        header := new Node(null, item, null);
        nodes, repr := [header], repr + {header};
        assert Linked(0);
        return;
      }
      ghost var n := |nodes| - 1;
      assert Linked(n);
      var node := new Node(header, item, null);
      header.right := node;
      header := node;
      nodes, repr := nodes + [node], repr + {node};
      forall i: nat | i < |nodes| ensures Linked(i) {
        if i < n { assert old(Linked(i)); }
      }
    }

    /** Unlinks a node of the list.  The node keeps its own links. */
    method Remove(node: Node<T>, ghost i: nat)
      requires Valid() && i < |nodes| && nodes[i] == node
      modifies this, repr
      ensures Valid() && nodes == old(nodes)[..i] + old(nodes)[i + 1..]
      ensures node.left == old(node.left) && node.right == old(node.right)
      ensures repr == old(repr) && forall n <- repr :: n.item == old(n.item)
    {
      assert Linked(i);
      ghost var was := nodes;
      var nodeRight := node.right;
      var nodeLeft := node.left;
      if nodeRight != null {
        nodeRight.left := nodeLeft;
      }
      if nodeLeft != null {
        nodeLeft.right := nodeRight;
      }
      if node == header {
        header := nodeLeft;
      }
      nodes := Without(nodes, i);
      forall k: nat | k < |nodes| ensures Linked(k) {
        assert old(Linked(if k < i then k else k + 1));
      }
    }

    method GetFirst() returns (node: Node?<T>)
      requires Valid()
      ensures node == if nodes == [] then null else nodes[|nodes| - 1]
    {
      return header;
    }

    method GetNext(current: Node<T>) returns (node: Node?<T>)
      ensures node == current.left
    {
      return current.left;
    }

    method GetItem(node: Node<T>) returns (item: T)
      ensures item == node.item
    {
      return node.item;
    }

    /** A traversal that removes any of the nodes it stands on, just before it steps on from
        them: it still visits every item once, newest first, and what is left afterwards is
        what was not removed, in its order.  `doomed` decides by the place in the traversal and the
        item, so that nodes with equal items may differ in their fate. */
    method Sweep(doomed: (nat, T) -> bool) returns (visited: seq<T>)
      requires Valid()
      modifies this, repr
      ensures Valid() && visited == Reverse(old(Items(nodes)))
      ensures nodes == Kept(old(nodes), old(Items(nodes)), doomed)
      ensures repr == old(repr) && forall n <- repr :: n.item == old(n.item)
    {
      ghost var all, items := nodes, Items(nodes);
      var current := GetFirst();
      SweptNone(all, items, doomed);
      visited := SweepFrom(current, doomed, all, items);
    }

    /** The loop of the sweep, from the first node on. */
    method SweepFrom(first: Node?<T>, doomed: (nat, T) -> bool, ghost all: seq<Node<T>>, ghost items: seq<T>)
      returns (visited: seq<T>)
      requires |all| == |items| && Sweeping(all, items, doomed, |all|, [], [], first)
      modifies this, repr
      ensures Valid() && visited == Reverse(items) && nodes == Kept(all, items, doomed)
      ensures repr == old(repr) && forall n <- repr :: n.item == old(n.item)
    {
      visited := [];
      var current := first;
      ghost var k: nat, kept: seq<Node<T>> := |all|, [];
      while current != null
        invariant Sweeping(all, items, doomed, k, kept, visited, current)
        invariant repr == old(repr) && forall n <- repr :: n.item == old(n.item)
        decreases k
      {
        k := k - 1;
        current, visited, kept := SweepOne(current, doomed, visited, all, items, k, kept);
      }
      SweptAll(all, items, doomed, kept, visited);
    }

    /** A sweep that has yet to visit the nodes `all[..k]`. */
    ghost predicate Sweeping(all: seq<Node<T>>, items: seq<T>, doomed: (nat, T) -> bool, k: nat,
                             kept: seq<Node<T>>, visited: seq<T>, current: Node?<T>)
      reads this, repr, all
    {
      && k <= |all| == |items| && Valid() && Joined(nodes, all, k, kept)
      && current == (if k == 0 then null else all[k - 1])
      && (forall i :: 0 <= i < k ==> all[i].item == items[i])
      && |visited| == |all| - k && Swept(all, items, doomed, k, kept, visited)
    }

    method SweepOne(current: Node<T>, doomed: (nat, T) -> bool, visited: seq<T>,
                    ghost all: seq<Node<T>>, ghost items: seq<T>, ghost k: nat, ghost kept: seq<Node<T>>)
      returns (next: Node?<T>, visited': seq<T>, ghost kept': seq<Node<T>>)
      requires Sweeping(all, items, doomed, k + 1, kept, visited, current)
      modifies this, repr
      ensures repr == old(repr) && forall n <- repr :: n.item == old(n.item)
      ensures Sweeping(all, items, doomed, k, kept', visited', next)
    {
      NextSwept(all, items, doomed, k + 1, kept, visited);
      var item;
      item, next := VisitAndStep(current, |visited|, doomed, all, k, kept);
      visited' := visited + [item];
      kept' := if doomed(|visited|, item) then kept else [all[k]] + kept;
    }

    /** The body of the sweep: visit, perhaps remove, and only then step on. */
    method VisitAndStep(current: Node<T>, place: nat, doomed: (nat, T) -> bool,
                        ghost all: seq<Node<T>>, ghost k: nat, ghost kept: seq<Node<T>>)
      returns (item: T, next: Node?<T>)
      requires Valid() && k < |all| && Joined(nodes, all, k + 1, kept) && current == all[k]
      modifies this, repr
      ensures Valid() && repr == old(repr) && forall n <- repr :: n.item == old(n.item)
      ensures item == old(current.item) && next == (if k == 0 then null else all[k - 1])
      ensures Joined(nodes, all, k, if doomed(place, item) then kept else [current] + kept)
    {
      assert nodes[k] == all[k] && Linked(k);
      item := GetItem(current);
      if doomed(place, item) {
        Remove(current, k);
      }
      next := GetNext(current);
    }

    /** A traversal that changes nothing. */
    method Traverse() returns (visited: seq<T>)
      requires Valid()
      ensures visited == Reverse(Items(nodes))
    {
      visited := [];
      var current := GetFirst();
      ghost var k: nat := |nodes|;
      assert Items(nodes)[k..] == [];
      while current != null
        invariant k <= |nodes| && current == (if k == 0 then null else nodes[k - 1])
        invariant visited == Reverse(Items(nodes)[k..])
        decreases k
      {
        assert Linked(k - 1);
        assert Items(nodes)[k - 1..][1..] == Items(nodes)[k..];
        var item := GetItem(current);
        visited := visited + [item];
        current := GetNext(current);
        k := k - 1;
      }
      assert Items(nodes)[0..] == Items(nodes);
    }

    /** Following a link and coming back leads to the same node, and the ends are where they should be. */
    lemma LinksInverse(n: Node<T>)
      requires Valid() && n in nodes
      ensures n.left != null ==> n.left in nodes && n.left.right == n
      ensures n.right != null ==> n.right in nodes && n.right.left == n
      ensures n.right == null <==> n == header
    {
      var i :| 0 <= i < |nodes| && nodes[i] == n;
      assert Linked(i);
      assert i > 0 ==> Linked(i - 1);
      assert i < |nodes| - 1 ==> Linked(i + 1);
    }
  }

  /** The nodes that are not doomed, in order; the last one is visited first. */
  ghost function Kept<T>(nodes: seq<Node<T>>, items: seq<T>, doomed: (nat, T) -> bool): seq<Node<T>>
    requires |nodes| == |items|
  {
    if nodes == [] then []
    else
      var rest := Kept(nodes[1..], items[1..], doomed);
      if doomed(|nodes| - 1, items[0]) then rest else [nodes[0]] + rest
  }

  /** With every node in one place only, those that survive are those not doomed, ... */
  lemma {:induction false} KeptAreNotDoomed<T>(nodes: seq<Node<T>>, items: seq<T>, doomed: (nat, T) -> bool, i: nat)
    requires i < |nodes| == |items| && forall a, b :: 0 <= a < b < |nodes| ==> nodes[a] != nodes[b]
    ensures nodes[i] in Kept(nodes, items, doomed) <==> !doomed(|nodes| - 1 - i, items[i])
  {
    KeptAreNodes(nodes[1..], items[1..], doomed);
    if i > 0 {
      KeptAreNotDoomed(nodes[1..], items[1..], doomed, i - 1);
    }
  }

  lemma {:induction false} KeptAreNodes<T>(nodes: seq<Node<T>>, items: seq<T>, doomed: (nat, T) -> bool)
    requires |nodes| == |items|
    ensures forall n <- Kept(nodes, items, doomed) :: n in nodes
  {
    if nodes != [] {
      KeptAreNodes(nodes[1..], items[1..], doomed);
    }
  }

  /** ... and they keep their order. */
  lemma {:induction false} KeptInOrder<T>(nodes: seq<Node<T>>, items: seq<T>, doomed: (nat, T) -> bool,
                                          a: nat, b: nat) returns (i: nat, j: nat)
    requires |nodes| == |items| && a < b < |Kept(nodes, items, doomed)|
    ensures i < j < |nodes| && nodes[i] == Kept(nodes, items, doomed)[a] && nodes[j] == Kept(nodes, items, doomed)[b]
  {
    var rest := Kept(nodes[1..], items[1..], doomed);
    if doomed(|nodes| - 1, items[0]) {
      i, j := KeptInOrder(nodes[1..], items[1..], doomed, a, b);
      i, j := i + 1, j + 1;
    } else if a > 0 {
      i, j := KeptInOrder(nodes[1..], items[1..], doomed, a - 1, b - 1);
      i, j := i + 1, j + 1;
    } else {
      KeptAreNodes(nodes[1..], items[1..], doomed);
      assert rest[b - 1] in rest;
      j :| 1 <= j < |nodes| && nodes[j] == rest[b - 1];
      i := 0;
    }
  }

  /** What a sweep has kept and visited when it has dealt with the nodes from `k` on. */
  ghost predicate Swept<T>(all: seq<Node<T>>, items: seq<T>, doomed: (nat, T) -> bool, k: nat,
                           kept: seq<Node<T>>, visited: seq<T>)
    requires k <= |all| == |items|
  {
    kept == Kept(all[k..], items[k..], doomed) && visited == Reverse(items[k..])
  }

  lemma SweptNone<T>(all: seq<Node<T>>, items: seq<T>, doomed: (nat, T) -> bool)
    requires |all| == |items|
    ensures Swept(all, items, doomed, |all|, [], []) && all[|all|..] == []
  {
    assert all[|all|..] == [] && items[|all|..] == [];
  }

  lemma SweptAll<T>(all: seq<Node<T>>, items: seq<T>, doomed: (nat, T) -> bool, kept: seq<Node<T>>, visited: seq<T>)
    requires |all| == |items| && Swept(all, items, doomed, 0, kept, visited)
    ensures kept == Kept(all, items, doomed) && visited == Reverse(items)
  {
  }

  lemma NextSwept<T>(all: seq<Node<T>>, items: seq<T>, doomed: (nat, T) -> bool, k: nat,
                     kept: seq<Node<T>>, visited: seq<T>)
    requires 0 < k <= |all| == |items| && Swept(all, items, doomed, k, kept, visited)
    ensures Swept(all, items, doomed, k - 1,
                  if doomed(|all| - k, items[k - 1]) then kept else [all[k - 1]] + kept, visited + [items[k - 1]])
  {
  }
}
