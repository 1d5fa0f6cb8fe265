/**
  The doubly linked list of src/utils/utils_list.c: whatever pushes, pops and removals do to its
  links, it stands for one sequence of nodes, which its lookups and its iterators go through.
 */
module LinkedList {
  import opened Wrappers

  datatype ListDirection = LIST_HEAD | LIST_TAIL

  class ListNode<V> {
    var prev: ListNode?<V>
    var next: ListNode?<V>
    const val: V

    constructor (val: V)
      ensures this.val == val && prev == null && next == null
    {
      this.val := val;
      prev, next := null, null;
    }
  }

  /**
    What has been given back: nodes, and the values that a list's own function has freed. The
    links of a node given back hold anything from then on.
   */
  class Heap<V> {
    var freedNodes: seq<ListNode<V>>
    var freedValues: seq<V>

    constructor ()
      ensures freedNodes == [] && freedValues == []
    {
      freedNodes, freedValues := [], [];
    }

    method FreeNode(node: ListNode<V>)
      modifies this`freedNodes, node`prev, node`next
      ensures freedNodes == old(freedNodes) + [node]
    {
      freedNodes := freedNodes + [node];
      node.prev, node.next := *, *;
    }

    method FreeValue(val: V)
      modifies this`freedValues
      ensures freedValues == old(freedValues) + [val]
    {
      freedValues := freedValues + [val];
    }
  }

  /** The nodes are distinct, and each one's links are its neighbours. */
  ghost predicate Linked<V>(nodes: seq<ListNode<V>>)
    reads nodes`prev, nodes`next
  {
    && Distinct(nodes)
    && (forall i {:trigger nodes[i].prev} :: 0 <= i < |nodes| ==> nodes[i].prev == Before(nodes, i))
    && (forall i {:trigger nodes[i].next} :: 0 <= i < |nodes| ==> nodes[i].next == Behind(nodes, i))
  }

  ghost predicate Distinct<V>(nodes: seq<ListNode<V>>) {
    forall i, j :: 0 <= i < j < |nodes| ==> nodes[i] != nodes[j]
  }

  ghost function Before<V>(nodes: seq<ListNode<V>>, i: nat): ListNode?<V>
    requires i < |nodes|
  {
    if i == 0 then null else nodes[i - 1]
  }

  ghost function Behind<V>(nodes: seq<ListNode<V>>, i: nat): ListNode?<V>
    requires i < |nodes|
  {
    if i == |nodes| - 1 then null else nodes[i + 1]
  }

  lemma DistinctWithout<V>(nodes: seq<ListNode<V>>, i: nat)
    requires i < |nodes| && Distinct(nodes)
    ensures Distinct(nodes[..i] + nodes[i + 1..])
    ensures nodes[i] !in nodes[..i] + nodes[i + 1..]
  {
  }

  lemma LinkedApart<V>(nodes: seq<ListNode<V>>, i: nat)
    requires i < |nodes| && Linked(nodes)
    ensures nodes[i] !in nodes[..i] + nodes[i + 1..]
  {
    DistinctWithout(nodes, i);
  }

  /** The links are those of the neighbours, but for the i-th node, which its neighbours leave out. */
  ghost predicate Skipping<V>(nodes: seq<ListNode<V>>, i: nat)
    requires i < |nodes|
    reads nodes`prev, nodes`next
  {
    && Distinct(nodes)
    && (forall k {:trigger nodes[k].prev} :: 0 <= k < |nodes| && k != i ==>
      nodes[k].prev == Before(nodes, if k == i + 1 then i else k))
    && (forall k {:trigger nodes[k].next} :: 0 <= k < |nodes| && k != i ==>
      nodes[k].next == Behind(nodes, if k + 1 == i then i else k))
  }

  lemma SkippingLinked<V>(nodes: seq<ListNode<V>>, i: nat)
    requires i < |nodes| && Skipping(nodes, i)
    ensures Linked(nodes[..i] + nodes[i + 1..])
  {
    var rest := nodes[..i] + nodes[i + 1..];
    DistinctWithout(nodes, i);
    hide Distinct;
    forall k | 0 <= k < |rest|
      ensures rest[k].prev == Before(rest, k) && rest[k].next == Behind(rest, k)
    {
      var j := if k < i then k else k + 1;
      assert rest[k] == nodes[j];
      assert nodes[j].prev == Before(nodes, if j == i + 1 then i else j);
      assert nodes[j].next == Behind(nodes, if j + 1 == i then i else j);
    }
  }

  /** The nodes as an iterator in this direction meets them. */
  ghost function Order<V>(direction: ListDirection, nodes: seq<ListNode<V>>): (r: seq<ListNode<V>>)
    ensures |r| == |nodes|
    ensures forall k {:trigger r[k]} :: 0 <= k < |nodes| ==>
      r[k] == if direction == LIST_HEAD then nodes[k] else nodes[|nodes| - 1 - k]
  {
    if direction == LIST_HEAD then nodes
    else if |nodes| == 0 then []
    else [nodes[|nodes| - 1]] + Order(direction, nodes[..|nodes| - 1])
  }

  class ListIterator<V> {
    var next: ListNode?<V>
    const direction: ListDirection

    constructor (node: ListNode?<V>, direction: ListDirection)
      ensures next == node && this.direction == direction
    {
      next := node;
      this.direction := direction;
    }

    /** The next node to be returned is the k-th in the iterator's direction; none is left after the last. */
    ghost predicate Stands(nodes: seq<ListNode<V>>, k: nat)
      requires k <= |nodes|
      reads this
    {
      next == if k < |nodes| then Order(direction, nodes)[k] else null
    }

    /** The node that was next is returned, and the one after it in the list is next. */
    method Next(ghost nodes: seq<ListNode<V>>, ghost k: nat) returns (curr: ListNode?<V>)
      requires Linked(nodes) && k <= |nodes| && Stands(nodes, k)
      modifies this`next
      ensures curr == if k < |nodes| then Order(direction, nodes)[k] else null
      ensures k < |nodes| ==> Stands(nodes, k + 1)
      ensures k == |nodes| ==> next == null
    {
      curr := next;
      if curr != null {
        ghost var i := if direction == LIST_HEAD then k else |nodes| - 1 - k;
        assert curr == nodes[i] && nodes[i].next == Behind(nodes, i) && nodes[i].prev == Before(nodes, i);
        next := if direction == LIST_HEAD then curr.next else curr.prev;
      }
    }
  }

  class List<V(==)> {
    var head: ListNode?<V>
    var tail: ListNode?<V>
    var len: nat
    const frees: bool
    const matches: Option<(V, V) -> bool>
    const heap: Heap<V>
    ghost var nodes: seq<ListNode<V>>

    ghost predicate Valid()
      reads this, nodes`prev, nodes`next
    {
      && len == |nodes| && Linked(nodes)
      && head == (if len == 0 then null else nodes[0])
      && tail == (if len == 0 then null else nodes[len - 1])
    }

    constructor (frees: bool, matches: Option<(V, V) -> bool>, heap: Heap<V>)
      ensures Valid() && nodes == [] && this.frees == frees && this.matches == matches && this.heap == heap
    {
      head, tail, len, nodes := null, null, 0, [];
      this.frees, this.matches, this.heap := frees, matches, heap;
    }

    method RPush(node: ListNode?<V>) returns (r: ListNode?<V>)
      requires Valid() && node !in nodes
      modifies this`head, this`tail, this`len, this`nodes, nodes`next, node
      ensures Valid() && r == node
      ensures nodes == if node == null then old(nodes) else old(nodes) + [node]
    {
      if node == null {
        return null;
      }
      if len > 0 {
        node.prev := tail;
        node.next := null;
        tail.next := node;
        tail := node;
      } else {
        head, tail := node, node;
        node.prev, node.next := null, null;
      }
      len := len + 1;
      ghost var all := nodes + [node];
      forall k | 0 <= k < |all|
        ensures all[k].prev == Before(all, k) && all[k].next == Behind(all, k)
      {
        if k < |nodes| {
          assert all[k] == nodes[k] && old(nodes[k].prev) == Before(nodes, k) && old(nodes[k].next) == Behind(nodes, k);
        }
      }
      nodes := all;
      return node;
    }

    method LPush(node: ListNode?<V>) returns (r: ListNode?<V>)
      requires Valid() && node !in nodes
      modifies this`head, this`tail, this`len, this`nodes, nodes`prev, node
      ensures Valid() && r == node
      ensures nodes == if node == null then old(nodes) else [node] + old(nodes)
    {
      if node == null {
        return null;
      }
      if len > 0 {
        node.next := head;
        node.prev := null;
        head.prev := node;
        head := node;
      } else {
        head, tail := node, node;
        node.prev, node.next := null, null;
        assert [node] + nodes == [node];
      }
      len := len + 1;
      nodes := [node] + nodes;
      return node;
    }

    method RPop() returns (node: ListNode?<V>)
      requires Valid()
      modifies this`head, this`tail, this`len, this`nodes, nodes`prev, nodes`next
      ensures Valid()
      ensures old(nodes) == [] ==> node == null && nodes == []
      ensures old(nodes) != [] ==> node != null && node.prev == node.next == null && old(nodes) == nodes + [node]
    {
      if len == 0 {
        return null;
      }
      node := tail;
      len := len - 1;
      if len > 0 {
        tail := node.prev;
        tail.next := null;
      } else {
        tail, head := null, null;
      }
      node.next, node.prev := null, null;
      SkippingLinked(nodes, len);
      ghost var rest := nodes[..len];
      assert nodes[..len] + nodes[len + 1..] == rest;
      nodes := rest;
    }

    method LPop() returns (node: ListNode?<V>)
      requires Valid()
      modifies this`head, this`tail, this`len, this`nodes, nodes`prev, nodes`next
      ensures Valid()
      ensures old(nodes) == [] ==> node == null && nodes == []
      ensures old(nodes) != [] ==> node != null && node.prev == node.next == null && old(nodes) == [node] + nodes
    {
      if len == 0 {
        return null;
      }
      node := head;
      len := len - 1;
      UnlinkFirst();
      node.next, node.prev := null, null;
      nodes := nodes[1..];
    }

    /** The list starts behind its first node. */
    method UnlinkFirst()
      requires Linked(nodes) && |nodes| > 0 && len == |nodes| - 1 && head == nodes[0] && tail == nodes[len]
      modifies this`head, this`tail, nodes`prev
      ensures head == (if len == 0 then null else nodes[1]) && tail == (if len == 0 then null else nodes[len])
      ensures nodes[0] !in nodes[1..] && Linked(nodes[1..])
    {
      if len > 0 {
        head := head.next;
        head.prev := null;
      } else {
        head, tail := null, null;
      }
      SkippingLinked(nodes, 0);
      DistinctWithout(nodes, 0);
      assert nodes[..0] + nodes[1..] == nodes[1..];
    }

    /** The neighbours of a node, or the ends of the list, now skip it. */
    method Unlink(node: ListNode<V>, ghost i: nat)
      requires Valid() && i < |nodes| && nodes[i] == node
      modifies this`head, this`tail, nodes`prev, nodes`next
      ensures Linked(nodes[..i] + nodes[i + 1..])
      ensures var rest := nodes[..i] + nodes[i + 1..];
        && head == (if rest == [] then null else rest[0])
        && tail == (if rest == [] then null else rest[|rest| - 1])
    {
      assert node.prev == Before(nodes, i) && node.next == Behind(nodes, i);
      if node.prev != null {
        node.prev.next := node.next;
      } else {
        head := node.next;
      }
      if node.next != null {
        node.next.prev := node.prev;
      } else {
        tail := node.prev;
      }
      SkippingLinked(nodes, i);
    }

    /** A node of the list is unlinked and given back, with its value when the list frees values. */
    method Remove(node: ListNode<V>, ghost i: nat)
      requires Valid() && i < |nodes| && nodes[i] == node
      modifies this`head, this`tail, this`len, this`nodes, nodes`prev, nodes`next, heap
      ensures Valid() && nodes == old(nodes[..i] + nodes[i + 1..])
      ensures heap.freedNodes == old(heap.freedNodes) + [node]
      ensures heap.freedValues == old(heap.freedValues) + if frees then [node.val] else []
    {
      hide Linked;
      LinkedApart(nodes, i);
      ghost var rest := nodes[..i] + nodes[i + 1..];
      assert |rest| == len - 1;
      Unlink(node, i);
      nodes := rest;
      if frees {
        heap.FreeValue(node.val);
      }
      heap.FreeNode(node);
      len := len - 1;
    }

    /** list_iterator_new */
    method Iterate(direction: ListDirection) returns (it: ListIterator<V>)
      requires Valid()
      ensures fresh(it) && it.direction == direction && it.Stands(nodes, 0)
    {
      it := new ListIterator(if direction == LIST_HEAD then head else tail, direction);
    }

    predicate Matches(val: V, node: ListNode<V>) {
      if matches.Some? then matches.value(val, node.val) else val == node.val
    }

    /** The first node whose value matches. */
    method Find(val: V) returns (node: ListNode?<V>)
      requires Valid()
      ensures node == null ==> forall i :: 0 <= i < |nodes| ==> !Matches(val, nodes[i])
      ensures node != null ==> exists i ::
        0 <= i < |nodes| && nodes[i] == node && Matches(val, node) && forall j :: 0 <= j < i ==> !Matches(val, nodes[j])
    {
      hide Linked;
      var it := Iterate(LIST_HEAD);
      ghost var k := 0;
      node := it.Next(nodes, 0);
      while node != null
        invariant 0 <= k <= |nodes| && it.direction == LIST_HEAD && fresh(it)
        invariant node == if k < |nodes| then nodes[k] else null
        invariant k < |nodes| ==> it.Stands(nodes, k + 1)
        invariant forall j :: 0 <= j < k ==> !Matches(val, nodes[j])
        decreases |nodes| - k
        modifies it
      {
        if Matches(val, node) {
          return;
        }
        node := it.Next(nodes, k + 1);
        k := k + 1;
      }
    }

    /** The node at an index, counted from the end when it is negative. */
    method At(index0: int) returns (node: ListNode?<V>)
      requires Valid()
      ensures 0 <= index0 < |nodes| ==> node == nodes[index0]
      ensures -|nodes| <= index0 < 0 ==> node == nodes[|nodes| + index0]
      ensures index0 < -|nodes| || index0 >= |nodes| ==> node == null
    {
      hide Linked;
      var direction, index := LIST_HEAD, index0;
      if index < 0 {
        direction := LIST_TAIL;
        index := -index - 1;
      }
      if index < len {
        var it := Iterate(direction);
        ghost var k := 0;
        node := it.Next(nodes, 0);
        ghost var steps := index;
        while index > 0
          invariant 0 <= index <= steps && k == steps - index && it.direction == direction && fresh(it)
          invariant k < |nodes| && node == Order(direction, nodes)[k] && it.Stands(nodes, k + 1)
          modifies it
        {
          node := it.Next(nodes, k + 1);
          k := k + 1;
          index := index - 1;
        }
        return node;
      }
      return null;
    }

    /** Every node is given back once, in order, and so is every value when the list frees values. */
    method Destroy()
      requires Valid()
      modifies nodes`prev, nodes`next, heap
      ensures heap.freedNodes == old(heap.freedNodes) + nodes
      ensures heap.freedValues == old(heap.freedValues) + FreedOf(frees, nodes)
    {
      var left := len;
      var curr := head;
      ghost var k := 0;
      while left > 0
        invariant 0 <= k <= |nodes| && left == |nodes| - k
        invariant curr == NodeAt(nodes, k)
        invariant forall j {:trigger nodes[j].next} :: k <= j < |nodes| ==> nodes[j].next == Behind(nodes, j)
        invariant heap.freedNodes == old(heap.freedNodes) + nodes[..k]
        invariant heap.freedValues == old(heap.freedValues) + FreedOf(frees, nodes[..k])
      {
        assert nodes[..k + 1] == nodes[..k] + [nodes[k]];
        FreedMore(frees, nodes[..k], nodes[k]);
        var next := curr.next;
        if frees {
          heap.FreeValue(curr.val);
        }
        heap.FreeNode(curr);
        curr := next;
        k := k + 1;
        left := left - 1;
      }
      assert nodes[..k] == nodes;
    }

    /** One node of the walk is removed, or not, after the iterator has moved on; then comes the next. */
    method SweepTurn(it: ListIterator<V>, node: ListNode<V>, doomed: set<ListNode<V>>,
          ghost all: seq<ListNode<V>>, ghost k: nat, ghost m: nat, ghost owned: set<ListNode<V>>)
      returns (next: ListNode?<V>, ghost m': nat)
      requires Valid() && Swept(all, k, it.direction, nodes, m, doomed) && k < |all| && node == all[k]
      requires m < |nodes| && it.Stands(nodes, m + 1) && forall n :: n in nodes ==> n in owned
      modifies this`head, this`tail, this`len, this`nodes, owned`prev, owned`next, heap, it`next
      ensures Valid() && Swept(all, k + 1, it.direction, nodes, m', doomed) && forall n :: n in nodes ==> n in owned
      ensures next == NodeAt(all, k + 1)
      ensures k + 1 < |all| ==> m' < |nodes| && it.Stands(nodes, m' + 1)
      ensures heap.freedNodes == old(heap.freedNodes) + if node in doomed then [node] else []
      ensures heap.freedValues == old(heap.freedValues) + if node in doomed && frees then [node.val] else []
    {
      hide Linked, Order, Without, ListIterator.Stands, Swept;
      SweptMore(all, k, it.direction, nodes, m, doomed);
      m' := m;
      if node in doomed {
        ghost var i := if it.direction == LIST_HEAD then m else |nodes| - 1 - m;
        ghost var before := nodes;
        Remove(node, i);
        StandsAfterRemove(it, before, i, m);
      } else {
        m' := m + 1;
      }
      SweptNext(all, k + 1, it.direction, nodes, m', doomed);
      next := it.Next(nodes, m');
    }

    /**
      A walk that removes any of the nodes it has just been handed: it still visits every node of the
      list exactly once, in order, and leaves exactly the others. Those removed are given back once
      each, in order, with their values when the list frees values.
     */
    method Sweep(direction: ListDirection, doomed: set<ListNode<V>>) returns (visited: seq<ListNode<V>>)
      requires Valid()
      modifies this`head, this`tail, this`len, this`nodes, nodes`prev, nodes`next, heap
      ensures Valid()
      ensures visited == old(Order(direction, nodes))
      ensures Order(direction, nodes) == Without(old(Order(direction, nodes)), doomed)
      ensures var gone := Within(old(Order(direction, nodes)), doomed);
        && heap.freedNodes == old(heap.freedNodes) + gone
        && heap.freedValues == old(heap.freedValues) + FreedOf(frees, gone)
    {
      hide Linked, Order, Without, Within, FreedOf, ListIterator.Stands, Swept, Walk, NodeAt, List.Valid;
      ghost var all, owned := Order(direction, nodes), set n | n in nodes;
      ghost var k, m: nat := 0, 0;
      visited := [];
      WalkNone(all, heap.freedNodes, doomed);
      FreedNone(frees, all, doomed);
      var it, next := SweepStart(direction, doomed);
      while next != null
        invariant Valid() && it.direction == direction && fresh(it)
        invariant k <= |all| && next == NodeAt(all, k)
        invariant Walk(all, k, visited, heap.freedNodes, old(heap.freedNodes), doomed)
        invariant heap.freedValues == old(heap.freedValues) + FreedOf(frees, Within(all[..k], doomed))
        invariant Swept(all, k, direction, nodes, m, doomed)
        invariant k < |all| ==> m < |nodes| && it.Stands(nodes, m + 1)
        invariant forall n :: n in nodes ==> n in owned
        decreases |all| - k
      {
        NodeThere(all, k);
        WalkMore(all, k, visited, heap.freedNodes, old(heap.freedNodes), doomed);
        FreedWithin(frees, all, k, doomed);
        var node: ListNode<V> := next;
        visited := visited + [node];
        ghost var m';
        next, m' := SweepTurn(it, node, doomed, all, k, m, owned);
        k, m := k + 1, m';
      }
      NodeThere(all, k);
      WalkAll(all, visited, heap.freedNodes, old(heap.freedNodes), doomed);
      SweptAll(all, direction, nodes, m, doomed);
    }

    method SweepStart(direction: ListDirection, ghost doomed: set<ListNode<V>>)
      returns (it: ListIterator<V>, node: ListNode?<V>)
      requires Valid()
      ensures fresh(it) && it.direction == direction && node == NodeAt(Order(direction, nodes), 0)
      ensures var all := Order(direction, nodes);
        |all| == |nodes| && Swept(all, 0, direction, nodes, 0, doomed) && (|all| > 0 ==> it.Stands(nodes, 1))
    {
      hide Linked, Order, Without, Within, ListIterator.Stands, Swept;
      SweptNone(direction, nodes, doomed);
      it := Iterate(direction);
      node := it.Next(nodes, 0);
    }

    method Step(op: Op<V>, ghost owned: set<ListNode<V>>)
      requires Valid() && Legal(op, nodes) && Owns(owned, nodes) && OpOwned(owned, op)
      modifies this`head, this`tail, this`len, this`nodes, owned, heap
      ensures Valid() && nodes == Applied(op, old(nodes)) && Owns(owned, nodes)
    {
      hide Linked, Valid;
      match op
      case RPushOp(node) =>
        var _ := RPush(node);
      case LPushOp(node) =>
        var _ := LPush(node);
      case RPopOp =>
        PoppedBehind(nodes);
        var _ := RPop();
      case LPopOp =>
        var _ := LPop();
      case RemoveOp(node) =>
        ghost var i := Place(nodes, node);
        Remove(node, i);
    }

    /** Under any run of pushes, pops and removals the list stands for the sequence they make of the nodes it had. */
    method Run(ops: seq<Op<V>>, ghost owned: set<ListNode<V>>)
      requires Valid() && LegalRun(ops, nodes) && Owns(owned, nodes)
      requires forall k :: 0 <= k < |ops| ==> OpOwned(owned, ops[k])
      modifies this`head, this`tail, this`len, this`nodes, owned, heap
      ensures Valid() && nodes == AfterAll(ops, old(nodes))
    {
      hide Valid, Legal, Applied, Owns, OpOwned;
      var k := 0;
      assert ops[0..] == ops;
      while k < |ops|
        invariant 0 <= k <= |ops| && Valid() && Owns(owned, nodes)
        invariant LegalRun(ops[k..], nodes) && AfterAll(ops[k..], nodes) == AfterAll(ops, old(nodes))
      {
        assert ops[k..][1..] == ops[k + 1..];
        Step(ops[k], owned);
        k := k + 1;
      }
    }
  }

  datatype Op<V> =
    | RPushOp(node: ListNode<V>)
    | LPushOp(node: ListNode<V>)
    | RPopOp
    | LPopOp
    | RemoveOp(node: ListNode<V>)

  /** Only nodes outside the list are pushed, and only nodes of the list removed. */
  ghost predicate Legal<V>(op: Op<V>, nodes: seq<ListNode<V>>) {
    match op
    case RPushOp(node) => node !in nodes
    case LPushOp(node) => node !in nodes
    case RemoveOp(node) => node in nodes
    case _ => true
  }

  /** The first place of a node. */
  ghost function Place<V>(nodes: seq<ListNode<V>>, node: ListNode<V>): (i: nat)
    requires node in nodes
    ensures i < |nodes| && nodes[i] == node
  {
    if nodes[0] == node then 0 else 1 + Place(nodes[1..], node)
  }

  ghost function Applied<V>(op: Op<V>, nodes: seq<ListNode<V>>): seq<ListNode<V>>
    requires Legal(op, nodes)
  {
    match op
    case RPushOp(node) => nodes + [node]
    case LPushOp(node) => [node] + nodes
    case RPopOp => if nodes == [] then [] else nodes[..|nodes| - 1]
    case LPopOp => if nodes == [] then [] else nodes[1..]
    case RemoveOp(node) => nodes[..Place(nodes, node)] + nodes[Place(nodes, node) + 1..]
  }

  lemma PoppedBehind<V>(nodes: seq<ListNode<V>>)
    ensures forall rest: seq<ListNode<V>>, n: ListNode<V> :: nodes == rest + [n] ==> rest == nodes[..|nodes| - 1]
  {
  }

  ghost predicate LegalRun<V>(ops: seq<Op<V>>, nodes: seq<ListNode<V>>)
    decreases |ops|
  {
    |ops| == 0 || (Legal(ops[0], nodes) && LegalRun(ops[1..], Applied(ops[0], nodes)))
  }

  ghost function AfterAll<V>(ops: seq<Op<V>>, nodes: seq<ListNode<V>>): seq<ListNode<V>>
    requires LegalRun(ops, nodes)
    decreases |ops|
  {
    if |ops| == 0 then nodes else AfterAll(ops[1..], Applied(ops[0], nodes))
  }

  ghost predicate Owns<V>(owned: set<ListNode<V>>, nodes: seq<ListNode<V>>) {
    forall n :: n in nodes ==> n in owned
  }

  ghost predicate OpOwned<V>(owned: set<ListNode<V>>, op: Op<V>) {
    match op
    case RPushOp(node) => node in owned
    case LPushOp(node) => node in owned
    case _ => true
  }

  ghost function NodeAt<V>(all: seq<ListNode<V>>, k: nat): ListNode?<V> {
    if k < |all| then all[k] else null
  }

  lemma NodeThere<V>(all: seq<ListNode<V>>, k: nat)
    ensures if k < |all| then NodeAt(all, k) == all[k] else NodeAt(all, k) == null
  {
  }

  /** The first k nodes of a walk were visited, and the doomed ones of them given back. */
  ghost predicate Walk<V>(all: seq<ListNode<V>>, k: nat, visited: seq<ListNode<V>>, freed: seq<ListNode<V>>,
      freed0: seq<ListNode<V>>, doomed: set<ListNode<V>>) {
    k <= |all| && visited == all[..k] && freed == freed0 + Within(all[..k], doomed)
  }

  lemma WalkNone<V>(all: seq<ListNode<V>>, freed: seq<ListNode<V>>, doomed: set<ListNode<V>>)
    ensures Walk(all, 0, [], freed, freed, doomed)
  {
  }

  lemma WalkMore<V>(all: seq<ListNode<V>>, k: nat, visited: seq<ListNode<V>>, freed: seq<ListNode<V>>,
      freed0: seq<ListNode<V>>, doomed: set<ListNode<V>>)
    requires Walk(all, k, visited, freed, freed0, doomed) && k < |all|
    ensures Walk(all, k + 1, visited + [all[k]], freed + if all[k] in doomed then [all[k]] else [], freed0, doomed)
  {
    WithinMore(all, k, doomed);
  }

  lemma WalkAll<V>(all: seq<ListNode<V>>, visited: seq<ListNode<V>>, freed: seq<ListNode<V>>,
      freed0: seq<ListNode<V>>, doomed: set<ListNode<V>>)
    requires Walk(all, |all|, visited, freed, freed0, doomed)
    ensures visited == all && freed == freed0 + Within(all, doomed)
  {
    assert all[..|all|] == all;
  }

  /** After the first k nodes of the walk: those of them that stay, then all the others. */
  ghost predicate Swept<V>(all: seq<ListNode<V>>, k: nat, direction: ListDirection, nodes: seq<ListNode<V>>, m: nat,
      doomed: set<ListNode<V>>) {
    && k <= |all| && m == |Without(all[..k], doomed)|
    && Order(direction, nodes) == Without(all[..k], doomed) + all[k..]
  }

  lemma SweptNone<V>(direction: ListDirection, nodes: seq<ListNode<V>>, doomed: set<ListNode<V>>)
    ensures var all := Order(direction, nodes);
      |all| == |nodes| && (if |all| > 0 then NodeAt(all, 0) == all[0] else NodeAt(all, 0) == null)
        && Swept(all, 0, direction, nodes, 0, doomed) && Within(all[..0], doomed) == []
        && (|all| > 0 ==> Order(direction, nodes)[0] == all[0])
  {
  }

  lemma SweptMore<V>(all: seq<ListNode<V>>, k: nat, direction: ListDirection, nodes: seq<ListNode<V>>, m: nat,
      doomed: set<ListNode<V>>)
    requires Swept(all, k, direction, nodes, m, doomed) && k < |all|
    ensures m < |nodes|
    ensures var i := if direction == LIST_HEAD then m else |nodes| - 1 - m;
      && nodes[i] == all[k]
      && if all[k] in doomed then Swept(all, k + 1, direction, nodes[..i] + nodes[i + 1..], m, doomed)
         else Swept(all, k + 1, direction, nodes, m + 1, doomed)
  {
    hide Order, Without;
    WithoutMore(all, k, doomed);
    OrderLength(direction, nodes);
    var i := if direction == LIST_HEAD then m else |nodes| - 1 - m;
    OrderWithout(direction, nodes, i, m);
    assert all[k..] == [all[k]] + all[k + 1..];
  }

  lemma OrderLength<V>(direction: ListDirection, nodes: seq<ListNode<V>>)
    ensures |Order(direction, nodes)| == |nodes|
  {
  }

  lemma SweptNext<V>(all: seq<ListNode<V>>, k: nat, direction: ListDirection, nodes: seq<ListNode<V>>, m: nat,
      doomed: set<ListNode<V>>)
    requires Swept(all, k, direction, nodes, m, doomed)
    ensures m <= |nodes| && |Order(direction, nodes)| == |nodes| && (m < |nodes| <==> k < |all|)
    ensures k < |all| ==> Order(direction, nodes)[m] == all[k]
  {
  }

  lemma SweptAll<V>(all: seq<ListNode<V>>, direction: ListDirection, nodes: seq<ListNode<V>>, m: nat,
      doomed: set<ListNode<V>>)
    requires Swept(all, |all|, direction, nodes, m, doomed)
    ensures Order(direction, nodes) == Without(all, doomed) && all[..|all|] == all
  {
    assert all[..|all|] == all && all[|all|..] == [];
  }

  lemma StandsAfterRemove<V>(it: ListIterator<V>, nodes: seq<ListNode<V>>, i: nat, m: nat)
    requires i < |nodes| && m < |nodes| && i == (if it.direction == LIST_HEAD then m else |nodes| - 1 - m)
      && it.Stands(nodes, m + 1)
    ensures it.Stands(nodes[..i] + nodes[i + 1..], m)
  {
    OrderWithout(it.direction, nodes, i, m);
  }

  lemma OrderWithout<V>(direction: ListDirection, nodes: seq<ListNode<V>>, i: nat, m: nat)
    requires i < |nodes| && i == if direction == LIST_HEAD then m else |nodes| - 1 - m
    ensures Order(direction, nodes)[m] == nodes[i]
    ensures Order(direction, nodes[..i] + nodes[i + 1..])
      == Order(direction, nodes)[..m] + Order(direction, nodes)[m + 1..]
  {
    hide Order;
    var rest := nodes[..i] + nodes[i + 1..];
    var all := Order(direction, nodes);
    OrderLength(direction, nodes);
    OrderLength(direction, rest);
    OrderAt(direction, nodes, m);
    var a, b := Order(direction, rest), all[..m] + all[m + 1..];
    forall k | 0 <= k < |a|
      ensures a[k] == b[k]
    {
      OrderAt(direction, rest, k);
      OrderAt(direction, nodes, if k < m then k else k + 1);
    }
  }

  lemma OrderAt<V>(direction: ListDirection, nodes: seq<ListNode<V>>, k: nat)
    requires k < |nodes|
    ensures |Order(direction, nodes)| == |nodes|
    ensures Order(direction, nodes)[k] == nodes[if direction == LIST_HEAD then k else |nodes| - 1 - k]
  {
  }

  /** The nodes that stay, in order. */
  ghost function Without<V>(nodes: seq<ListNode<V>>, doomed: set<ListNode<V>>): (r: seq<ListNode<V>>)
    ensures |r| <= |nodes|
  {
    if |nodes| == 0 then []
    else Without(nodes[..|nodes| - 1], doomed) + if nodes[|nodes| - 1] in doomed then [] else [nodes[|nodes| - 1]]
  }

  /** The nodes that go, in order. */
  ghost function Within<V>(nodes: seq<ListNode<V>>, doomed: set<ListNode<V>>): seq<ListNode<V>> {
    if |nodes| == 0 then []
    else Within(nodes[..|nodes| - 1], doomed) + if nodes[|nodes| - 1] in doomed then [nodes[|nodes| - 1]] else []
  }

  lemma WithinMore<V>(all: seq<ListNode<V>>, k: nat, doomed: set<ListNode<V>>)
    requires k < |all|
    ensures Within(all[..k + 1], doomed) == Within(all[..k], doomed) + if all[k] in doomed then [all[k]] else []
  {
    assert all[..k + 1][..k] == all[..k];
  }

  lemma WithoutMore<V>(all: seq<ListNode<V>>, k: nat, doomed: set<ListNode<V>>)
    requires k < |all|
    ensures Without(all[..k + 1], doomed) == Without(all[..k], doomed) + if all[k] in doomed then [] else [all[k]]
  {
    assert all[..k + 1][..k] == all[..k];
  }

  function Values<V>(nodes: seq<ListNode<V>>): seq<V> {
    if |nodes| == 0 then [] else Values(nodes[..|nodes| - 1]) + [nodes[|nodes| - 1].val]
  }

  /** The values that are given back with the nodes. */
  function FreedOf<V>(frees: bool, nodes: seq<ListNode<V>>): seq<V> {
    if frees then Values(nodes) else []
  }

  lemma FreedMore<V>(frees: bool, nodes: seq<ListNode<V>>, node: ListNode<V>)
    ensures FreedOf(frees, nodes + [node]) == FreedOf(frees, nodes) + if frees then [node.val] else []
  {
    assert (nodes + [node])[..|nodes|] == nodes;
  }

  lemma FreedNone<V>(frees: bool, all: seq<ListNode<V>>, doomed: set<ListNode<V>>)
    ensures FreedOf(frees, Within(all[..0], doomed)) == []
  {
  }

  lemma FreedWithin<V>(frees: bool, all: seq<ListNode<V>>, k: nat, doomed: set<ListNode<V>>)
    requires k < |all|
    ensures FreedOf(frees, Within(all[..k + 1], doomed))
      == FreedOf(frees, Within(all[..k], doomed)) + if all[k] in doomed && frees then [all[k].val] else []
  {
    hide Within, FreedOf;
    var gone := Within(all[..k], doomed);
    WithinMore(all, k, doomed);
    FreedMore(frees, gone, all[k]);
    assert gone + [] == gone;
  }
}
