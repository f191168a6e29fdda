/** The list of pending callbacks: linked nodes with a head and a tail pointer, which
    behave as a queue. */
module CallbackList {
  import opened Bytes
  import opened Dict

  class Node {
    const cb: Callback
    var next: Node?

    constructor (cb: Callback)
      ensures this.cb == cb && next == null
    {
      this.cb, next := cb, null;
    }
  }

  /** The nodes c are linked one after the other, starting from head; the last one points
      to end. */
  ghost predicate Linked(head: Node?, c: seq<Node>, end: Node?)
    reads c`next
  {
    if c == [] then head == end else head == c[0] && Linked(c[0].next, c[1..], end)
  }

  /** The last node of a chain stands where the rest of the chain ends. */
  lemma {:induction false} LinkedSnoc(head: Node?, c: seq<Node>, last: Node, end: Node?)
    ensures Linked(head, c + [last], end) <==> Linked(head, c, last) && last.next == end
    decreases |c|
  {
    assert Linked(last.next, [], end) <==> last.next == end;
    assert [last][1..] == [];
    if c == [] {
      assert c + [last] == [last];
    } else {
      assert (c + [last])[1..] == c[1..] + [last];
      LinkedSnoc(c[0].next, c[1..], last, end);
    }
  }

  function Callbacks(spine: seq<Node>): (q: seq<Callback>)
    ensures |q| == |spine| && forall i :: 0 <= i < |q| ==> q[i] == spine[i].cb
  {
    seq(|spine|, i requires 0 <= i < |spine| => spine[i].cb)
  }

  lemma LastOf(c: seq<Node>)
    requires c != []
    ensures c == c[..|c| - 1] + [c[|c| - 1]]
  {
  }

  class CallbackList {
    var head: Node?
    var tail: Node?

    /** The callbacks waiting, first in first out; the nodes from head to tail that hold
        them, among all nodes of the list. */
    ghost var queue: seq<Callback>
    ghost var spine: seq<Node>
    ghost var nodes: set<Node>

    ghost predicate Valid()
      reads this, nodes
    {
      && Elems(spine) <= nodes && NoDup(spine)
      && Linked(head, spine, null)
      && tail == (if spine == [] then null else spine[|spine| - 1])
      && queue == Callbacks(spine)
    }

    constructor ()
      ensures Valid() && queue == [] && nodes == {}
    {
      head, tail := null, null;
      queue, spine, nodes := [], [], {};
    }

    /** Let the last node of a chain point on. */
    static method Link(ghost head: Node?, ghost front: seq<Node>, last: Node, n: Node)
      requires Linked(head, front + [last], null) && NoDup(front + [last])
      modifies last`next
      ensures Linked(head, front + [last], n)
    {
      LinkedSnoc(head, front, last, null);
      NoDupSnoc(front, last);
      last.next := n;
      LinkedSnoc(head, front, last, n);
    }

    /** Put a node behind the last one. */
    method Append(n: Node)
      requires Valid() && n !in nodes && n.next == null
      modifies this`head, this`tail, nodes
      ensures Linked(head, spine + [n], null) && tail == n
    {
      if head == null {
        head := n;
      }
      if tail != null {
        LastOf(spine);
        Link(head, spine[..|spine| - 1], tail, n);
      }
      assert n !in spine;
      LinkedSnoc(head, spine, n, null);
      tail := n;
    }

    /** `__redisPushCallback`. */
    method Push(cb: Callback)
      requires Valid()
      modifies this, nodes
      ensures Valid() && fresh(nodes - old(nodes))
      ensures queue == old(queue) + [cb]
    {
      var n := new Node(cb);
      NoDupSnoc(spine, n);
      Append(n);
      queue, spine, nodes := queue + [cb], spine + [n], nodes + {n};
    }

    /** `__redisShiftCallback`: None when the list is empty. */
    method Shift() returns (target: Option<Callback>)
      requires Valid()
      modifies this
      ensures Valid() && nodes == old(nodes)
      ensures old(queue) == [] ==> target == None && queue == []
      ensures old(queue) != [] ==> target == Some(old(queue)[0]) && queue == old(queue)[1..]
    {
      var cb := head;
      if cb == null {
        return None;
      }
      head := cb.next;
      if cb == tail {
        tail := null;
      }
      queue, spine := queue[1..], spine[1..];
      return Some(cb.cb);
    }
  }

  /** The two lists of the asynchronous client. */
  class Pending {
    const replies: CallbackList
    const invalid: CallbackList

    /** What waits for an ordinary reply, and what was sent while subscribed. */
    ghost var queue: seq<Callback>
    ghost var late: seq<Callback>
    ghost var repr: set<object>

    ghost predicate Valid()
      reads this, repr
    {
      && this !in repr && replies in repr && invalid in repr
      && replies != invalid && replies.nodes !! invalid.nodes
      && replies.nodes <= repr && invalid.nodes <= repr
      && replies.Valid() && invalid.Valid()
      && queue == replies.queue && late == invalid.queue
    }

    constructor ()
      ensures Valid() && fresh(repr) && queue == [] && late == []
    {
      replies := new CallbackList();
      invalid := new CallbackList();
      queue, late := [], [];
      new;
      repr := {replies, invalid};
    }

    method Push(cb: Callback)
      requires Valid()
      modifies this, repr
      ensures Valid() && fresh(repr - old(repr))
      ensures queue == old(queue) + [cb] && late == old(late)
    {
      replies.Push(cb);
      queue, repr := replies.queue, repr + replies.nodes;
    }

    method PushLate(cb: Callback)
      requires Valid()
      modifies this, repr
      ensures Valid() && fresh(repr - old(repr))
      ensures queue == old(queue) && late == old(late) + [cb]
    {
      invalid.Push(cb);
      late, repr := invalid.queue, repr + invalid.nodes;
    }

    method Shift() returns (target: Option<Callback>)
      requires Valid()
      modifies this, repr
      ensures Valid() && repr == old(repr) && late == old(late)
      ensures old(queue) == [] ==> target == None && queue == []
      ensures old(queue) != [] ==> target == Some(old(queue)[0]) && queue == old(queue)[1..]
    {
      target := replies.Shift();
      queue := replies.queue;
    }

    method ShiftLate() returns (target: Option<Callback>)
      requires Valid()
      modifies this, repr
      ensures Valid() && repr == old(repr) && queue == old(queue)
      ensures old(late) == [] ==> target == None && late == []
      ensures old(late) != [] ==> target == Some(old(late)[0]) && late == old(late)[1..]
    {
      target := invalid.Shift();
      late := invalid.queue;
    }

    /** Whether nothing waits for an ordinary reply. */
    method Idle() returns (idle: bool)
      requires Valid()
      ensures idle == (queue == [])
    {
      idle := replies.head == null;
    }
  }
}
