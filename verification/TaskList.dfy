/** The intrusive circular list (linked_list.hpp) and the queue over it (wait_list.hpp), refined to
    the sequence of tasks in the order in which they were put. */
module TaskList {
  import opened Prelude

  class Node {
    var next: Node?
    var prev: Node?

    constructor ()
    {
    }
  }

  ghost function Reversed<T>(s: seq<T>): (r: seq<T>)
    ensures |r| == |s| && forall i :: 0 <= i < |s| ==> r[i] == s[|s| - 1 - i]
  {
    seq(|s|, i requires 0 <= i < |s| => s[|s| - 1 - i])
  }

  /** The node at a place of the list s, or the head beyond either end. */
  ghost function Place(head: Node, s: seq<Node>, i: int): Node {
    if 0 <= i < |s| then s[i] else head
  }

  class LinkedList {
    const head: Node
    /** The list from the head's next node on. */
    ghost var nodes: seq<Node>

    ghost predicate Valid()
      reads this, head, nodes
    {
      head !in nodes && Distinct(nodes) &&
      (forall i {:trigger nodes[i].next} :: 0 <= i < |nodes| ==> nodes[i].next == Place(head, nodes, i + 1)) &&
      (forall i {:trigger nodes[i].prev} :: 0 <= i < |nodes| ==> nodes[i].prev == Place(head, nodes, i - 1)) &&
      head.next == Place(head, nodes, 0) && head.prev == Place(head, nodes, |nodes| - 1)
    }

    constructor ()
      ensures Valid() && nodes == [] && fresh(head)
    {
      head := new Node();
      nodes := [];
      new;
      head.next, head.prev := head, head;
    }

    method IsEmpty() returns (b: bool)
      requires Valid()
      ensures b <==> nodes == []
    {
      b := head.next == head;
    }

    /** The task a node belongs to; the head belongs to none. */
    method Entry(node: Node) returns (t: Node?)
      ensures t == if node == head then null else node
    {
      t := if node == head then null else node;
    }

    method Add(node: Node)
      requires Valid() && node != head && node !in nodes
      modifies this`nodes, head, nodes, node
      ensures Valid() && nodes == [node] + old(nodes)
    {
      head.next.prev := node;
      node.next := head.next;
      node.prev := head;
      head.next := node;
      nodes := [node] + nodes;
    }

    /** Every node but the k-th of was has the neighbours that remain. */
    ghost predicate Unlinked(was: seq<Node>, k: nat)
      requires k < |was|
      reads head, was
    {
      (forall j {:trigger was[j].next} :: 0 <= j < |was| && j != k ==>
        was[j].next == Place(head, was, if j == k - 1 then k + 1 else j + 1)) &&
      (forall j {:trigger was[j].prev} :: 0 <= j < |was| && j != k ==>
        was[j].prev == Place(head, was, if j == k + 1 then k - 1 else j - 1)) &&
      head.next == Place(head, was, if k == 0 then 1 else 0) &&
      head.prev == Place(head, was, if k == |was| - 1 then k - 1 else |was| - 1)
    }

    lemma UnlinkedValid(was: seq<Node>, k: nat)
      requires k < |was| && head !in was && Distinct(was) && Unlinked(was, k)
      requires nodes == was[..k] + was[k + 1..]
      ensures Valid()
    {
    }

    method Del(node: Node, ghost k: nat)
      requires Valid() && k < |nodes| && nodes[k] == node
      modifies this`nodes, head, nodes
      ensures Valid() && nodes == old(nodes[..k] + nodes[k + 1..])
    {
      ghost var was := nodes;
      assert node.next == Place(head, was, k + 1) && node.prev == Place(head, was, k - 1);
      node.next.prev := node.prev;
      node.prev.next := node.next;
      assert Unlinked(was, k);
      nodes := nodes[..k] + nodes[k + 1..];
      UnlinkedValid(was, k);
    }
  }

  lemma ReversedEnds<T>(s: seq<T>, x: T)
    ensures Reversed([x] + s) == Reversed(s) + [x]
    ensures Reversed(s + [x]) == [x] + Reversed(s)
  {
  }

  lemma ReversedFirst<T>(s: seq<T>)
    requires s != []
    ensures var last := |s| - 1;
            Reversed(s)[last] == s[0] && Reversed(s[..0] + s[1..]) == Reversed(s)[..last]
  {
  }

  class WaitList {
    const list: LinkedList
    var alive: bool
    var num: int

    ghost predicate Valid()
      reads this, list, list.head, list.nodes
    {
      list.Valid() && num == |list.nodes|
    }

    /** The tasks that wait, oldest first. */
    ghost function Queue(): seq<Node>
      reads this, list
    {
      Reversed(list.nodes)
    }

    constructor ()
      ensures Valid() && alive && Queue() == [] && fresh(list) && fresh(list.head)
    {
      list := new LinkedList();
      alive, num := true, 0;
    }

    method Len() returns (n: int)
      requires Valid()
      ensures n == |Queue()|
    {
      n := num;
    }

    /** A node is in one list at most; a list that has been flushed takes no more nodes. */
    method Put(node: Node)
      requires Valid() && node != list.head && node !in list.nodes
      modifies this`num, list, list.head, list.nodes, node
      ensures Valid() && Queue() == if alive then old(Queue()) + [node] else old(Queue())
    {
      ReversedEnds(list.nodes, node);
      if alive {
        list.Add(node);
        num := num + 1;
      }
    }

    /** get once its wait is over, that is when the list is not empty or has been flushed. */
    method Get() returns (t: Node?)
      requires Valid() && (alive ==> Queue() != [])
      modifies this`num, list, list.head, list.nodes
      ensures Valid()
      ensures alive ==> t == old(Queue())[0] && Queue() == old(Queue())[1..]
      ensures !alive ==> t == null && Queue() == old(Queue())
    {
      t := null;
      if alive {
        ghost var last := |list.nodes| - 1;
        var node: Node := list.head.prev;
        t := list.Entry(node);
        ReversedEnds(list.nodes[..last], node);
        assert list.nodes[..last] + [node] == list.nodes;
        assert list.nodes[..last] + list.nodes[last + 1..] == list.nodes[..last];
        list.Del(node, last);
        num := num - 1;
      }
    }

    /** The timed get: empty-handed if the time ran out on an empty list. */
    method GetTimed(timedOut: bool) returns (t: Node?)
      requires Valid() && (alive && !timedOut ==> Queue() != [])
      modifies this`num, list, list.head, list.nodes
      ensures Valid()
      ensures alive && old(Queue()) != [] ==> t == old(Queue())[0] && Queue() == old(Queue())[1..]
      ensures !alive || old(Queue()) == [] ==> t == null && Queue() == old(Queue())
    {
      var empty := list.IsEmpty();
      if alive && empty {
        return null;
      }
      t := Get();
    }

    method GetFromHead() returns (t: Node?)
      requires Valid() && (alive ==> Queue() != [])
      modifies this`num, list, list.head, list.nodes
      ensures Valid()
      ensures alive ==> t == old(Queue())[|old(Queue())| - 1] && Queue() == old(Queue())[..|old(Queue())| - 1]
      ensures !alive ==> t == null && Queue() == old(Queue())
    {
      t := null;
      if alive {
        var node: Node := list.head.next;
        t := list.Entry(node);
        ReversedFirst(list.nodes);
        list.Del(node, 0);
        num := num - 1;
      }
    }

    method Flush()
      modifies this`alive
      ensures !alive && Queue() == old(Queue()) && (old(Valid()) ==> Valid())
    {
      alive := false;
    }
  }
}
