/** Thread lists (threadlist.c): doubly linked, with two bookend nodes that are always there.

`threads` is the sequence a list stands for; `Linked` says the pointers spell it out.  Every
operation is proved to do to the pointers what it does to the sequence, and to leave every
other list alone. */
module ThreadLists {

  class Node {
    var prev: Node?
    var next: Node?
    var self: Thread?

    /** threadlistnode_init, or a bookend if t is null. */
    constructor (t: Thread?)
      ensures prev == null && next == null && self == t
    {
      prev, next, self := null, null, t;
    }
  }

  class Thread {
    const listnode: Node

    constructor ()
      ensures fresh(listnode) && listnode.self == this && listnode.prev == null && listnode.next == null
    {
      var n := new Node(null);
      listnode := n;
      new;
      listnode.self := this;
    }
  }

  class ThreadList {
    const head: Node
    const tail: Node
    var count: nat
    ghost var threads: seq<Thread>

    /** The i-th node of the list for ts, bookends included. */
    ghost function NodeAt(ts: seq<Thread>, i: int): Node {
      if i <= 0 then head else if i <= |ts| then ts[i - 1].listnode else tail
    }

    ghost predicate Linked(ts: seq<Thread>)
      reads head, tail, set t | t in ts :: t.listnode
    {
      && head.prev == null && tail.next == null && head.self == null && tail.self == null
      && (forall i :: 0 <= i < |ts| ==> ts[i].listnode.self == ts[i])
      && (forall i :: 0 <= i <= |ts| ==> NodeAt(ts, i).next == NodeAt(ts, i + 1))
      && (forall i :: 0 < i <= |ts| + 1 ==> NodeAt(ts, i).prev == NodeAt(ts, i - 1))
    }

    ghost predicate Valid()
      reads this, head, tail, set t | t in threads :: t.listnode
    {
      Linked(threads) && count == |threads|
    }

    /** threadlist_init */
    constructor ()
      ensures Valid() && threads == [] && fresh(head) && fresh(tail)
    {
      head := new Node(null);
      tail := new Node(null);
      count, threads := 0, [];
      new;
      head.next := tail;
      tail.prev := head;
    }

    /** Walking back from a node reaches the head after as many steps as its place says, so no
        node stands at two places. */
    lemma {:induction false} PlacesDistinct(ts: seq<Thread>, i: int, j: int)
      requires Linked(ts) && 0 <= i < j <= |ts| + 1
      ensures NodeAt(ts, i) != NodeAt(ts, j)
      decreases i
    {
      if i > 0 {
        PlacesDistinct(ts, i - 1, j - 1);
      } else {
        assert NodeAt(ts, j).prev == NodeAt(ts, j - 1);
      }
    }

    /** threadlist_isempty */
    method IsEmpty() returns (r: bool)
      requires Valid()
      ensures r <==> threads == []
    {
      r := count == 0;
    }

    /** No node of this list is n. */
    ghost predicate Apart(n: Node)
      reads this
    {
      n != head && n != tail && forall t :: t in threads ==> t.listnode != n
    }

    lemma ApartFrom(o: ThreadList, ts: seq<Thread>, i: int)
      requires Linked(ts) && o.Valid() && o.head != head && 0 <= i <= |ts| + 1
      ensures o.Apart(NodeAt(ts, i))
    {
      ListsDisjoint(this, ts, i, o, o.threads, 0);
      ListsDisjoint(this, ts, i, o, o.threads, |o.threads| + 1);
      forall t | t in o.threads ensures t.listnode != NodeAt(ts, i) {
        var j :| 0 <= j < |o.threads| && o.threads[j] == t;
        ListsDisjoint(this, ts, i, o, o.threads, j + 1);
      }
    }

    /** A thread whose links are null is on no list. */
    lemma Unlinked(o: ThreadList, t: Thread)
      requires o.Valid() && t.listnode.self == t && t.listnode.prev == null
      ensures o.Apart(t.listnode)
    {
      assert o.NodeAt(o.threads, |o.threads| + 1).prev == o.NodeAt(o.threads, |o.threads|);
      forall u | u in o.threads ensures u.listnode != t.listnode {
        var j :| 0 <= j < |o.threads| && o.threads[j] == u;
        assert o.NodeAt(o.threads, j + 1).prev == o.NodeAt(o.threads, j);
      }
    }

    /** threadlist_insertafternode: t goes in behind place k. */
    method InsertAfterNode(onlist: Node, t: Thread, ghost k: nat)
      requires Valid() && k <= |threads| && onlist == NodeAt(threads, k)
      requires t.listnode.self == t && t.listnode.prev == null && t.listnode.next == null
      modifies onlist, NodeAt(threads, k + 1), t.listnode
      ensures Linked(threads[..k] + [t] + threads[k..])
    {
      ghost var ts, us := threads, threads[..k] + [t] + threads[k..];
      Unlinked(this, t);
      forall i, j | 0 <= i < j <= |ts| + 1 ensures NodeAt(ts, i) != NodeAt(ts, j) {
        PlacesDistinct(ts, i, j);
      }
      assert forall i :: 0 <= i <= k ==> NodeAt(us, i) == NodeAt(ts, i);
      assert NodeAt(us, k + 1) == t.listnode;
      assert forall i :: k + 1 < i <= |us| + 1 ==> NodeAt(us, i) == NodeAt(ts, i - 1);
      var addee := t.listnode;
      addee.prev := onlist;
      addee.next := onlist.next;
      addee.prev.next := addee;
      addee.next.prev := addee;
    }

    /** threadlist_insertbeforenode: t goes in ahead of place k + 1. */
    method InsertBeforeNode(t: Thread, onlist: Node, ghost k: nat)
      requires Valid() && k <= |threads| && onlist == NodeAt(threads, k + 1)
      requires t.listnode.self == t && t.listnode.prev == null && t.listnode.next == null
      modifies onlist, NodeAt(threads, k), t.listnode
      ensures Linked(threads[..k] + [t] + threads[k..])
    {
      ghost var ts, us := threads, threads[..k] + [t] + threads[k..];
      Unlinked(this, t);
      forall i, j | 0 <= i < j <= |ts| + 1 ensures NodeAt(ts, i) != NodeAt(ts, j) {
        PlacesDistinct(ts, i, j);
      }
      assert forall i :: 0 <= i <= k ==> NodeAt(us, i) == NodeAt(ts, i);
      assert NodeAt(us, k + 1) == t.listnode;
      assert forall i :: k + 1 < i <= |us| + 1 ==> NodeAt(us, i) == NodeAt(ts, i - 1);
      assert NodeAt(ts, k + 1).prev == NodeAt(ts, k);
      var addee := t.listnode;
      addee.prev := onlist.prev;
      addee.next := onlist;
      addee.prev.next := addee;
      addee.next.prev := addee;
    }

    /** threadlist_removenode: the thread at place k + 1 comes off with both links null. */
    method RemoveNode(tln: Node, ghost k: nat)
      requires Valid() && k < |threads| && tln == threads[k].listnode
      modifies tln, NodeAt(threads, k), NodeAt(threads, k + 2)
      ensures Linked(threads[..k] + threads[k + 1..])
      ensures tln.prev == null && tln.next == null && tln.self == old(tln.self)
    {
      ghost var ts, us := threads, threads[..k] + threads[k + 1..];
      forall i, j | 0 <= i < j <= |ts| + 1 ensures NodeAt(ts, i) != NodeAt(ts, j) {
        PlacesDistinct(ts, i, j);
      }
      assert NodeAt(ts, k + 1) == tln;
      assert forall i :: 0 <= i <= k ==> NodeAt(us, i) == NodeAt(ts, i);
      assert forall i :: k < i <= |us| + 1 ==> NodeAt(us, i) == NodeAt(ts, i + 1);
      assert tln.prev == NodeAt(ts, k) && tln.next == NodeAt(ts, k + 2);
      tln.prev.next := tln.next;
      tln.next.prev := tln.prev;
      tln.prev := null;
      tln.next := null;
    }

    /** threadlist_addhead */
    method AddHead(t: Thread)
      requires Valid() && t.listnode.self == t && t.listnode.prev == null && t.listnode.next == null
      modifies this, head, NodeAt(threads, 1), t.listnode
      ensures Valid() && threads == [t] + old(threads)
      ensures forall o: ThreadList :: old(allocated(o)) && o.head != head && old(o.Valid())
                ==> o.Valid() && o.threads == old(o.threads)
    {
      Bystanders(t, 0);
      InsertAfterNode(head, t, 0);
      count := count + 1;
      threads := [t] + threads;
      assert threads == old(threads)[..0] + [t] + old(threads)[0..];
    }

    /** threadlist_addtail */
    method AddTail(t: Thread)
      requires Valid() && t.listnode.self == t && t.listnode.prev == null && t.listnode.next == null
      modifies this, tail, NodeAt(threads, |threads|), t.listnode
      ensures Valid() && threads == old(threads) + [t]
      ensures forall o: ThreadList :: old(allocated(o)) && o.head != head && old(o.Valid())
                ==> o.Valid() && o.threads == old(o.threads)
    {
      Bystanders(t, |threads|);
      InsertBeforeNode(t, tail, |threads|);
      count := count + 1;
      threads := threads + [t];
      assert threads == old(threads)[..|old(threads)|] + [t] + old(threads)[|old(threads)|..];
    }

    /** threadlist_insertafter: behind the k-th thread. */
    method InsertAfter(onlist: Thread, addee: Thread, ghost k: nat)
      requires Valid() && k < |threads| && threads[k] == onlist
      requires addee.listnode.self == addee && addee.listnode.prev == null && addee.listnode.next == null
      modifies this, onlist.listnode, NodeAt(threads, k + 2), addee.listnode
      ensures Valid() && threads == old(threads)[..k + 1] + [addee] + old(threads)[k + 1..]
      ensures forall o: ThreadList :: old(allocated(o)) && o.head != head && old(o.Valid())
                ==> o.Valid() && o.threads == old(o.threads)
    {
      Bystanders(addee, k + 1);
      InsertAfterNode(onlist.listnode, addee, k + 1);
      count := count + 1;
      threads := threads[..k + 1] + [addee] + threads[k + 1..];
    }

    /** threadlist_insertbefore: ahead of the k-th thread. */
    method InsertBefore(addee: Thread, onlist: Thread, ghost k: nat)
      requires Valid() && k < |threads| && threads[k] == onlist
      requires addee.listnode.self == addee && addee.listnode.prev == null && addee.listnode.next == null
      modifies this, onlist.listnode, NodeAt(threads, k), addee.listnode
      ensures Valid() && threads == old(threads)[..k] + [addee] + old(threads)[k..]
      ensures forall o: ThreadList :: old(allocated(o)) && o.head != head && old(o.Valid())
                ==> o.Valid() && o.threads == old(o.threads)
    {
      Bystanders(addee, k);
      InsertBeforeNode(addee, onlist.listnode, k);
      count := count + 1;
      threads := threads[..k] + [addee] + threads[k..];
    }

    /** What the removal of the k-th thread touches is on no other list. */
    lemma RemovalBystanders(k: nat)
      requires Valid() && k < |threads|
      ensures forall o: ThreadList :: o.head != head && o.Valid()
                ==> o.Apart(NodeAt(threads, k)) && o.Apart(NodeAt(threads, k + 1)) && o.Apart(NodeAt(threads, k + 2))
    {
      forall o: ThreadList | o.head != head && o.Valid()
        ensures o.Apart(NodeAt(threads, k)) && o.Apart(NodeAt(threads, k + 1)) && o.Apart(NodeAt(threads, k + 2))
      {
        ApartFrom(o, threads, k);
        ApartFrom(o, threads, k + 1);
        ApartFrom(o, threads, k + 2);
      }
    }

    /** threadlist_remove: the k-th thread. */
    method Remove(t: Thread, ghost k: nat)
      requires Valid() && k < |threads| && threads[k] == t
      modifies this, t.listnode, NodeAt(threads, k), NodeAt(threads, k + 2)
      ensures Valid() && threads == old(threads)[..k] + old(threads)[k + 1..]
      ensures t.listnode.prev == null && t.listnode.next == null && t.listnode.self == t
      ensures forall o: ThreadList :: old(allocated(o)) && o.head != head && old(o.Valid())
                ==> o.Valid() && o.threads == old(o.threads)
    {
      RemovalBystanders(k);
      RemoveNode(t.listnode, k);
      count := count - 1;
      threads := threads[..k] + threads[k + 1..];
    }

    /** threadlist_remhead */
    method RemHead() returns (t: Thread?)
      requires Valid()
      modifies this, head, NodeAt(threads, 1), NodeAt(threads, 2)
      ensures Valid()
      ensures t == null <==> old(threads) == []
      ensures t == null ==> threads == []
      ensures t != null ==> old(threads) == [t] + threads
      ensures t != null ==> t.listnode.prev == null && t.listnode.next == null && t.listnode.self == t
      ensures forall o: ThreadList :: old(allocated(o)) && o.head != head && old(o.Valid())
                ==> o.Valid() && o.threads == old(o.threads)
    {
      assert NodeAt(threads, 0).next == NodeAt(threads, 1);
      assert threads != [] ==> NodeAt(threads, 1).next == NodeAt(threads, 2);
      var tln := head.next;
      if tln.next == null {
        return null;
      }
      t := tln.self;
      Remove(t, 0);
    }

    /** threadlist_remtail */
    method RemTail() returns (t: Thread?)
      requires Valid()
      modifies this, tail, NodeAt(threads, |threads|), NodeAt(threads, |threads| - 1)
      ensures Valid()
      ensures t == null <==> old(threads) == []
      ensures t == null ==> threads == []
      ensures t != null ==> old(threads) == threads + [t]
      ensures t != null ==> t.listnode.prev == null && t.listnode.next == null && t.listnode.self == t
      ensures forall o: ThreadList :: old(allocated(o)) && o.head != head && old(o.Valid())
                ==> o.Valid() && o.threads == old(o.threads)
    {
      ghost var n := |threads|;
      assert NodeAt(threads, n + 1).prev == NodeAt(threads, n);
      assert threads != [] ==> NodeAt(threads, n).prev == NodeAt(threads, n - 1);
      var tln := tail.prev;
      if tln.prev == null {
        return null;
      }
      t := tln.self;
      Remove(t, n - 1);
    }

    /** What an insertion behind place k touches is on no other list. */
    lemma Bystanders(t: Thread, k: nat)
      requires Valid() && k <= |threads| && t.listnode.self == t && t.listnode.prev == null
      ensures forall o: ThreadList :: o.head != head && o.Valid()
                ==> o.Apart(NodeAt(threads, k)) && o.Apart(NodeAt(threads, k + 1)) && o.Apart(t.listnode)
    {
      forall o: ThreadList | o.head != head && o.Valid()
        ensures o.Apart(NodeAt(threads, k)) && o.Apart(NodeAt(threads, k + 1)) && o.Apart(t.listnode)
      {
        ApartFrom(o, threads, k);
        ApartFrom(o, threads, k + 1);
        Unlinked(o, t);
      }
    }
  }

  /** Two lists with different heads have no node in common. */
  lemma {:induction false} ListsDisjoint(a: ThreadList, ts: seq<Thread>, i: int, b: ThreadList, us: seq<Thread>, j: int)
    requires a.Linked(ts) && b.Linked(us) && a.head != b.head
    requires 0 <= i <= |ts| + 1 && 0 <= j <= |us| + 1
    ensures a.NodeAt(ts, i) != b.NodeAt(us, j)
    decreases i
  {
    if i > 0 && j > 0 {
      ListsDisjoint(a, ts, i - 1, b, us, j - 1);
    } else if i > 0 {
      assert a.NodeAt(ts, i).prev == a.NodeAt(ts, i - 1);
    } else if j > 0 {
      assert b.NodeAt(us, j).prev == b.NodeAt(us, j - 1);
    }
  }
}
