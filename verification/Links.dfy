/** Singly linked lists in memory: what both sides keep their options, timers,
    observers and interactions in. The map from node to contents is what the pointers
    are at one moment, so that the shape can be reasoned about without the heap. */
module Links {
  import opened Common

  class Node<T> {
    var next: Node?<T>
    var item: T

    constructor (item: T)
      ensures this.item == item && next == null
    {
      this.item, next := item, null;
    }
  }

  datatype Cell<T> = Cell(next: Node?<T>, item: T)

  type Shape<T> = map<Node<T>, Cell<T>>

  ghost function NodeAt<T>(nodes: seq<Node<T>>, k: nat): Node?<T> {
    if k < |nodes| then nodes[k] else null
  }

  ghost predicate LinkOk<T>(nodes: seq<Node<T>>, items: seq<T>, shape: Shape<T>, k: nat) {
    k < |nodes| && k < |items| && nodes[k] in shape && shape[nodes[k]] == Cell(NodeAt(nodes, k + 1), items[k])
  }

  /** The nodes, in this order, are all there are, hold these items and end in null. */
  ghost predicate Chain<T>(nodes: seq<Node<T>>, items: seq<T>, shape: Shape<T>) {
    && |nodes| == |items| && Distinct(nodes) && (forall n :: n in shape ==> n in nodes)
    && forall k :: 0 <= k < |nodes| ==> LinkOk(nodes, items, shape, k)
  }

  /** s with x put at k. */
  ghost function With<T>(s: seq<T>, k: nat, x: T): seq<T>
    requires k <= |s|
  {
    s[..k] + [x] + s[k..]
  }

  lemma WithMembers<T>(s: seq<T>, k: nat, x: T, y: T)
    requires k <= |s|
    ensures y in With(s, k, x) <==> y == x || y in s
  {
    assert s == s[..k] + s[k..];
    assert With(s, k, x)[k] == x;
  }

  lemma WithDistinct<T>(s: seq<T>, k: nat, x: T)
    requires Distinct(s) && k <= |s| && x !in s
    ensures Distinct(With(s, k, x))
  {
  }

  lemma DropDistinct<T>(s: seq<T>, k: nat)
    requires Distinct(s) && k < |s|
    ensures Distinct(Drop(s, k))
  {
  }

  ghost function Joined<T>(nodes: seq<Node<T>>, shape: Shape<T>, k: nat, node: Node<T>, item: T): Shape<T>
    requires k <= |nodes| && (k > 0 ==> nodes[k - 1] in shape)
  {
    var s := shape[node := Cell(NodeAt(nodes, k), item)];
    if k == 0 then s else s[nodes[k - 1] := shape[nodes[k - 1]].(next := node)]
  }

  lemma ChainJoined<T>(nodes: seq<Node<T>>, items: seq<T>, shape: Shape<T>, k: nat, node: Node<T>, item: T)
    requires Chain(nodes, items, shape) && k <= |nodes| && node !in nodes
    ensures k > 0 ==> LinkOk(nodes, items, shape, k - 1)
    ensures Chain(With(nodes, k, node), With(items, k, item), Joined(nodes, shape, k, node, item))
  {
    assert k > 0 ==> LinkOk(nodes, items, shape, k - 1);
    var nodes', items', shape' := With(nodes, k, node), With(items, k, item), Joined(nodes, shape, k, node, item);
    forall i | 0 <= i < |nodes'| ensures LinkOk(nodes', items', shape', i) {
      if i < k {
        assert LinkOk(nodes, items, shape, i);
      } else if i > k {
        assert LinkOk(nodes, items, shape, i - 1);
      }
    }
    WithDistinct(nodes, k, node);
    forall n | n in shape' ensures n in nodes' {
      WithMembers(nodes, k, node, n);
    }
  }

  ghost function Cut<T>(nodes: seq<Node<T>>, shape: Shape<T>, k: nat): Shape<T>
    requires k < |nodes| && (k > 0 ==> nodes[k - 1] in shape)
  {
    var s := shape - {nodes[k]};
    if k == 0 then s else s[nodes[k - 1] := shape[nodes[k - 1]].(next := NodeAt(nodes, k + 1))]
  }

  lemma ChainCut<T>(nodes: seq<Node<T>>, items: seq<T>, shape: Shape<T>, k: nat)
    requires Chain(nodes, items, shape) && k < |nodes|
    ensures k > 0 ==> LinkOk(nodes, items, shape, k - 1)
    ensures Chain(Drop(nodes, k), Drop(items, k), Cut(nodes, shape, k))
  {
    assert k > 0 ==> LinkOk(nodes, items, shape, k - 1);
    var nodes', items', shape' := Drop(nodes, k), Drop(items, k), Cut(nodes, shape, k);
    forall i | 0 <= i < |nodes'| ensures LinkOk(nodes', items', shape', i) {
      if i < k {
        assert LinkOk(nodes, items, shape, i);
      } else {
        assert LinkOk(nodes, items, shape, i + 1);
      }
    }
    DropDistinct(nodes, k);
    forall n | n in shape' ensures n in nodes' {
      DropMembers(nodes, k, n);
    }
  }

  lemma ChainPut<T>(nodes: seq<Node<T>>, items: seq<T>, shape: Shape<T>, k: nat, item: T)
    requires Chain(nodes, items, shape) && k < |nodes| && nodes[k] in shape
    ensures Chain(nodes, items[k := item], shape[nodes[k] := shape[nodes[k]].(item := item)])
  {
    var shape', items' := shape[nodes[k] := shape[nodes[k]].(item := item)], items[k := item];
    forall i | 0 <= i < |nodes| ensures LinkOk(nodes, items', shape', i) {
      assert LinkOk(nodes, items, shape, i);
    }
  }

  class List<T> {
    var begin: Node?<T>
    ghost var nodes: seq<Node<T>>
    ghost var items: seq<T>
    ghost var shape: Shape<T>

    ghost predicate Valid()
      reads this, shape.Keys
    {
      && begin == NodeAt(nodes, 0) && Chain(nodes, items, shape)
      && forall n :: n in shape ==> n.next == shape[n].next && n.item == shape[n].item
    }

    constructor ()
      ensures Valid() && items == [] && shape == map[]
    {
      begin, nodes, items, shape := null, [], [], map[];
    }

    /** What can be read at position k. */
    lemma At(k: nat)
      requires Valid() && k < |nodes|
      ensures nodes[k] in shape && nodes[k].next == NodeAt(nodes, k + 1) && nodes[k].item == items[k]
    {
      assert LinkOk(nodes, items, shape, k);
    }

    lemma Members(n: Node<T>)
      requires Valid()
      ensures n in nodes <==> n in shape
    {
      if n in nodes {
        var k :| 0 <= k < |nodes| && nodes[k] == n;
        At(k);
      }
    }

    /** A node goes to the front. */
    method LinkFirst(node: Node<T>)
      requires Valid() && node !in shape
      modifies this, node`next
      ensures Valid() && nodes == With(old(nodes), 0, node) && items == With(old(items), 0, node.item)
      ensures shape.Keys == old(shape.Keys) + {node}
    {
      Members(node);
      node.next := begin;
      begin := node;
      ChainJoined(nodes, items, shape, 0, node, node.item);
      shape := Joined(nodes, shape, 0, node, node.item);
      nodes, items := With(nodes, 0, node), With(items, 0, node.item);
    }

    /** The start of the list is overwritten with null. */
    method Clear()
      modifies this
      ensures Valid() && nodes == [] && items == [] && shape == map[]
    {
      begin, nodes, items, shape := null, [], [], map[];
    }

    /** A node goes behind the one at position k. */
    method LinkAfter(ghost k: nat, prev: Node<T>, node: Node<T>)
      requires Valid() && k < |nodes| && prev == nodes[k] && node !in shape
      modifies this`nodes, this`items, this`shape, prev`next, node`next
      ensures Valid() && nodes == With(old(nodes), k + 1, node) && items == With(old(items), k + 1, node.item)
      ensures shape.Keys == old(shape.Keys) + {node}
    {
      At(k);
      Members(node);
      node.next := prev.next;
      prev.next := node;
      ChainJoined(nodes, items, shape, k + 1, node, node.item);
      shape := Joined(nodes, shape, k + 1, node, node.item);
      nodes, items := With(nodes, k + 1, node), With(items, k + 1, node.item);
    }

    /** The first node leaves. */
    method UnlinkFirst() returns (node: Node<T>)
      requires Valid() && begin != null
      modifies this
      ensures Valid() && old(nodes) != [] && node == old(nodes[0]) && nodes == Drop(old(nodes), 0)
      ensures items == Drop(old(items), 0)
      ensures shape.Keys == old(shape.Keys) - {node} && node.item == old(items)[0]
    {
      At(0);
      node := begin;
      begin := node.next;
      ChainCut(nodes, items, shape, 0);
      shape := Cut(nodes, shape, 0);
      nodes, items := Drop(nodes, 0), Drop(items, 0);
    }

    /** The node behind position k leaves. */
    method UnlinkAfter(ghost k: nat, prev: Node<T>) returns (node: Node<T>)
      requires Valid() && k + 1 < |nodes| && prev == nodes[k]
      modifies this`nodes, this`items, this`shape, prev`next
      ensures Valid() && node == old(nodes[k + 1]) && nodes == Drop(old(nodes), k + 1)
      ensures items == Drop(old(items), k + 1)
      ensures shape.Keys == old(shape.Keys) - {node} && node.item == old(items)[k + 1]
    {
      At(k);
      At(k + 1);
      node := prev.next;
      prev.next := node.next;
      ChainCut(nodes, items, shape, k + 1);
      shape := Cut(nodes, shape, k + 1);
      nodes, items := Drop(nodes, k + 1), Drop(items, k + 1);
    }

    /** The node at position k gets new contents. */
    method Put(ghost k: nat, node: Node<T>, item: T)
      requires Valid() && k < |nodes| && node == nodes[k]
      modifies this`items, this`shape, node`item
      ensures Valid() && items == old(items)[k := item] && shape.Keys == old(shape.Keys)
    {
      At(k);
      node.item := item;
      ChainPut(nodes, items, shape, k, item);
      shape := shape[node := shape[node].(item := item)];
      items := items[k := item];
    }
  }

  // ---------------------------------------------------------------- the walks over such lists

  /** A node goes to the end. */
  method Append<T>(list: List<T>, node: Node<T>)
    requires list.Valid() && node !in list.shape
    modifies list, list.shape.Keys, node
    ensures list.Valid() && list.shape.Keys == old(list.shape.Keys) + {node}
    ensures list.items == old(list.items) + [node.item] && list.nodes == old(list.nodes) + [node]
    ensures node.item == old(node.item)
  {
    if list.begin == null {
      list.LinkFirst(node);
    } else {
      var last, k := Last(list);
      list.LinkAfter(k, last, node);
    }
  }

  method Last<T>(list: List<T>) returns (last: Node<T>, ghost k: nat)
    requires list.Valid() && list.begin != null
    ensures k + 1 == |list.nodes| && last == list.nodes[k] && last in list.shape
  {
    last, k := list.begin, 0;
    list.At(0);
    while last.next != null
      invariant k < |list.nodes| && last == list.nodes[k] && last.next == NodeAt(list.nodes, k + 1)
      invariant last in list.shape
      decreases |list.nodes| - k
    {
      last := last.next;
      k := k + 1;
      list.At(k);
    }
  }

  /** A node leaves, if it is there. */
  method Remove<T>(list: List<T>, node: Node<T>)
    requires list.Valid()
    modifies list, list.shape.Keys
    ensures list.Valid() && list.shape.Keys == old(list.shape.Keys) - {node} && node.item == old(node.item)
    ensures list.items == if node in old(list.nodes) then Drop(old(list.items), Pos(old(list.nodes), node))
      else old(list.items)
    ensures list.nodes == if node in old(list.nodes) then Drop(old(list.nodes), Pos(old(list.nodes), node))
      else old(list.nodes)
  {
    var found, prev, k := Find(list, node);
    list.Members(node);
    if found {
      list.At(k);
      if prev == null {
        var _ := list.UnlinkFirst();
      } else {
        list.At(k - 1);
        var _ := list.UnlinkAfter(k - 1, prev);
      }
    }
  }

  /** The walk that finds a node and the one in front of it. */
  method Find<T>(list: List<T>, node: Node<T>) returns (found: bool, prev: Node?<T>, ghost k: nat)
    requires list.Valid()
    ensures found <==> node in list.nodes
    ensures found ==> k == Pos(list.nodes, node) && prev == if k == 0 then null else list.nodes[k - 1]
  {
    prev, k := null, 0;
    var curr := list.begin;
    while curr != null
      invariant k <= |list.nodes| && curr == NodeAt(list.nodes, k) && node !in list.nodes[..k]
      invariant prev == if k == 0 then null else list.nodes[k - 1]
      decreases |list.nodes| - k
    {
      if curr == node {
        PosIs(list.nodes, node, k);
        return true, prev, k;
      }
      list.At(k);
      prev := curr;
      curr := curr.next;
      assert list.nodes[..k + 1] == list.nodes[..k] + [list.nodes[k]];
      k := k + 1;
    }
    assert list.nodes[..k] == list.nodes;
    found := false;
  }

  /** The first of the items from k on that f accepts. */
  function FirstWith<T>(items: seq<T>, f: T -> bool, k: nat): (r: Option<nat>)
    requires k <= |items|
    ensures r.Some? ==> k <= r.value < |items| && f(items[r.value]) && forall i :: k <= i < r.value ==> !f(items[i])
    ensures r == None ==> forall i :: k <= i < |items| ==> !f(items[i])
    decreases |items| - k
  {
    if k == |items| then None else if f(items[k]) then Some(k) else FirstWith(items, f, k + 1)
  }

  /** The walk that finds it. */
  method Search<T>(list: List<T>, f: T -> bool) returns (node: Node?<T>)
    requires list.Valid()
    ensures match FirstWith(list.items, f, 0)
      case None => node == null
      case Some(k) => k < |list.nodes| && node == list.nodes[k] && node.item == list.items[k]
  {
    node := list.begin;
    ghost var k := 0;
    while node != null
      invariant k <= |list.items| && node == NodeAt(list.nodes, k)
      invariant FirstWith(list.items, f, k) == FirstWith(list.items, f, 0)
      decreases |list.items| - k
    {
      list.At(k);
      if f(node.item) {
        return;
      }
      node := node.next;
      k := k + 1;
    }
  }
}
