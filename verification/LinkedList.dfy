/** The doubly linked list behind CONNECTIONS and COMMANDS, proved to be a sequence of its nodes. */
module LinkedList {

  class Node<T> {
    var next: Node?<T>
    var prev: Node?<T>
    var data: T

    constructor (data: T)
      ensures this.data == data && next == null && prev == null
    {
      this.data, next, prev := data, null, null;
    }
  }

  ghost function At<T>(nodes: seq<Node<T>>, i: int): Node?<T> {
    if 0 <= i < |nodes| then nodes[i] else null
  }

  /** Without node k, the nodes behind it move up one place. */
  lemma SkipAt<T>(o: seq<Node<T>>, k: nat, j: int)
    requires k < |o|
    ensures At(o[..k] + o[k + 1..], j) == At(o, if j < k then j else j + 1)
  {
  }

  lemma StillDistinct<T>(o: seq<Node<T>>, k: nat)
    requires k < |o| && forall i, j | 0 <= i < j < |o| :: o[i] != o[j]
    ensures var r := o[..k] + o[k + 1..]; forall i, j | 0 <= i < j < |r| :: r[i] != r[j]
  {
    var r := o[..k] + o[k + 1..];
    forall i, j | 0 <= i < j < |r| ensures r[i] != r[j] {
      assert r[i] == o[if i < k then i else i + 1];
      assert r[j] == o[if j < k then j else j + 1];
    }
  }

  class List<T> {
    var head: Node?<T>
    var tail: Node?<T>
    var elements: int
    ghost var nodes: seq<Node<T>>
    /** Every node that was ever in the list. */
    ghost var cells: set<Node<T>>

    ghost predicate Valid()
      reads this, cells
    {
      && (forall i | 0 <= i < |nodes| :: nodes[i] in cells)
      && (forall i, j | 0 <= i < j < |nodes| :: nodes[i] != nodes[j])
      && Joined()
    }

    /** The links and the count are those of the nodes. */
    ghost predicate Joined()
      reads this, nodes
    {
      && head == At(nodes, 0)
      && tail == At(nodes, |nodes| - 1)
      && elements == |nodes|
      && (forall i {:trigger nodes[i].next} | 0 <= i < |nodes| :: nodes[i].next == At(nodes, i + 1))
      && (forall i {:trigger nodes[i].prev} | 0 <= i < |nodes| :: nodes[i].prev == At(nodes, i - 1))
    }

    /** The list as a sequence of what its nodes hold. */
    ghost function Contents(): seq<T>
      reads this, nodes
    {
      seq(|nodes|, i requires 0 <= i < |nodes| reads this, nodes => nodes[i].data)
    }

    /** list_create */
    constructor ()
      ensures Valid() && nodes == [] && cells == {}
    {
      head, tail, elements, nodes, cells := null, null, 0, [], {};
    }

    /** list_add: a node that is not in the list goes to its end. */
    method Add(node: Node?<T>) returns (r: Node?<T>)
      requires Valid() && node !in nodes
      modifies this, cells, node
      ensures Valid() && r == node && cells == if node == null then old(cells) else old(cells) + {node}
      ensures node == null ==> nodes == old(nodes)
      ensures node == null ==> Contents() == old(Contents())
      ensures node != null ==> nodes == old(nodes) + [node] && Contents() == old(Contents() + [node.data])
    {
      if node == null {
        return null;
      }
      if tail == null {
        head, tail := node, node;
        node.next, node.prev := null, null;
      } else {
        node.prev := tail;
        tail.next := node;
        tail := node;
        node.next := null;
      }
      elements := elements + 1;
      nodes, cells := nodes + [node], cells + {node};
      return node;
    }

    /** The links bypass node k of nodes o, and no other link has changed. */
    ghost predicate Bypassed(o: seq<Node<T>>, k: nat)
      requires k < |o|
      reads this, o
    {
      && head == (if k == 0 then At(o, 1) else At(o, 0))
      && tail == (if k == |o| - 1 then At(o, |o| - 2) else At(o, |o| - 1))
      && (forall i {:trigger o[i].next} | 0 <= i < |o| && i != k ::
            o[i].next == At(o, if i == k - 1 then k + 1 else i + 1))
      && (forall i {:trigger o[i].prev} | 0 <= i < |o| && i != k ::
            o[i].prev == At(o, if i == k + 1 then k - 1 else i - 1))
    }

    lemma NextSkips(o: seq<Node<T>>, k: nat, r: seq<Node<T>>)
      requires k < |o| && Bypassed(o, k) && r == o[..k] + o[k + 1..]
      ensures forall j {:trigger r[j].next} | 0 <= j < |r| :: r[j].next == At(r, j + 1)
    {
      forall j {:trigger r[j].next} | 0 <= j < |r| ensures r[j].next == At(r, j + 1) {
        SkipAt(o, k, j);
        SkipAt(o, k, j + 1);
        assert o[if j < k then j else j + 1].next == At(o, if j + 1 < k then j + 1 else j + 2);
      }
    }

    lemma PrevSkips(o: seq<Node<T>>, k: nat, r: seq<Node<T>>)
      requires k < |o| && Bypassed(o, k) && r == o[..k] + o[k + 1..]
      ensures forall j {:trigger r[j].prev} | 0 <= j < |r| :: r[j].prev == At(r, j - 1)
    {
      forall j {:trigger r[j].prev} | 0 <= j < |r| ensures r[j].prev == At(r, j - 1) {
        SkipAt(o, k, j);
        SkipAt(o, k, j - 1);
        assert o[if j < k then j else j + 1].prev == At(o, if j - 1 < k then j - 1 else j);
      }
    }

    lemma EndsSkip(o: seq<Node<T>>, k: nat, r: seq<Node<T>>)
      requires k < |o| && Bypassed(o, k) && r == o[..k] + o[k + 1..]
      ensures head == At(r, 0) && tail == At(r, |r| - 1)
    {
      SkipAt(o, k, 0);
      SkipAt(o, k, |r| - 1);
    }

    lemma {:induction false} BypassedIsRemoved(o: seq<Node<T>>, k: nat)
      requires k < |o| && Bypassed(o, k)
      requires nodes == o[..k] + o[k + 1..] && elements == |nodes|
      ensures Joined()
    {
      EndsSkip(o, k, nodes);
      NextSkips(o, k, nodes);
      PrevSkips(o, k, nodes);
    }

    /** What a node holds is changed where it stands. */
    method Update(node: Node<T>, ghost k: nat, data: T)
      requires Valid() && k < |nodes| && nodes[k] == node
      modifies node`data
      ensures Valid()
      ensures Contents() == old(Contents())[k := data]
    {
      node.data := data;
    }

    /** list_remove: a node of the list is taken out, the others keep their order. */
    method Remove(node: Node<T>, ghost k: nat)
      requires Valid() && k < |nodes| && nodes[k] == node
      modifies this, cells
      ensures Valid() && cells == old(cells)
      ensures nodes == old(nodes[..k] + nodes[k + 1..])
      ensures Contents() == old(Contents()[..k] + Contents()[k + 1..])
    {
      Bypass(node, k);
      elements := elements - 1;
      nodes := nodes[..k] + nodes[k + 1..];
      StillDistinct(old(nodes), k);
      assert forall i | 0 <= i < |nodes| :: nodes[i] in old(nodes);
      BypassedIsRemoved(old(nodes), k);
    }

    method Bypass(node: Node<T>, ghost k: nat)
      requires Valid() && k < |nodes| && nodes[k] == node
      modifies this`head, this`tail, cells`next, cells`prev
      ensures Bypassed(nodes, k)
    {
      if node == head {
        head := node.next;
        if node.next != null {
          node.next.prev := null;
        } else {
          tail := null;
        }
      } else if node == tail {
        tail := tail.prev;
        tail.next := null;
      } else {
        node.prev.next := node.next;
        node.next.prev := node.prev;
      }
    }
  }
}
