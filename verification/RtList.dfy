/** The circular doubly linked list under every wait list (rt-thread/include/rtservice.h), and the
    operations of the IPC layer on it (rt-thread/src/ipc.c, rt_ipc_list_suspend and _resume).
    The links are rewritten in place, in the order the code rewrites them; each operation is
    proved against the sequence of nodes that the ring stands for. */
module RtList {
  import opened Sequences
  import opened WaitQueue

  /** A list node, embedded in a thread or in the IPC object as the head of its ring. */
  class Node {
    var next: Node
    var prev: Node
    var priority: int  // current_priority of the thread the node is embedded in
    var error: Err     // and its error

    constructor (priority: int)
      ensures next == this && prev == this && this.priority == priority && error == EOK
    {
      next, prev := this, this;
      this.priority, error := priority, EOK;
    }
  }

  /** The i-th node of a walk along next that starts, and ends, at the head. */
  ghost function At(head: Node, s: seq<Node>, i: nat): Node {
    if 1 <= i <= |s| then s[i - 1] else head
  }

  /** Walking next from head meets exactly the nodes of s before it meets head again, and walking
      prev meets them backwards. */
  ghost predicate Ring(head: Node, s: seq<Node>)
    reads head, s
  {
    && head !in s
    && Distinct(s)
    && (forall i {:trigger At(head, s, i)} :: 0 <= i <= |s| ==>
         At(head, s, i).next == At(head, s, i + 1) && At(head, s, i + 1).prev == At(head, s, i))
  }

  /** The same of a snapshot of the links. */
  ghost predicate Linked(head: Node, s: seq<Node>, next: map<Node, Node>, prev: map<Node, Node>) {
    && next.Keys == prev.Keys >= Nodes(head, s)
    && (forall i {:trigger At(head, s, i)} :: 0 <= i <= |s| ==>
         next[At(head, s, i)] == At(head, s, i + 1) && prev[At(head, s, i + 1)] == At(head, s, i))
  }

  ghost function Nodes(head: Node, s: seq<Node>): set<Node> {
    {head} + set x | x in s
  }

  ghost function NextIn(nodes: set<Node>): map<Node, Node>
    reads nodes
  {
    map x | x in nodes :: x.next
  }

  ghost function PrevIn(nodes: set<Node>): map<Node, Node>
    reads nodes
  {
    map x | x in nodes :: x.prev
  }

  lemma NodesDiffer(head: Node, s: seq<Node>, i: nat, j: nat)
    requires head !in s && Distinct(s)
    requires i < j && (j <= |s| || (1 <= i && j == |s| + 1))
    ensures At(head, s, i) != At(head, s, j)
  {
  }

  ghost function Priorities(s: seq<Node>): (r: seq<int>)
    reads s
    ensures |r| == |s| && forall i :: 0 <= i < |s| ==> r[i] == s[i].priority
  {
    seq(|s|, i requires 0 <= i < |s| reads s => s[i].priority)
  }

  lemma LinkedAfterInsert(head: Node, s: seq<Node>, k: nat, n: Node, next: map<Node, Node>, prev: map<Node, Node>)
    requires head !in s && Distinct(s) && k <= |s| && n != head && n !in s
    requires Linked(head, s, next, prev)
    ensures
      var a, b := At(head, s, k), At(head, s, k + 1);
      Linked(head, InsertAt(s, k, n), next[a := n][n := b], prev[b := n][n := a])
  {
    var s' := InsertAt(s, k, n);
    var a, b := At(head, s, k), At(head, s, k + 1);
    var next', prev' := next[a := n][n := b], prev[b := n][n := a];
    forall i | 0 <= i <= |s'|
      ensures next'[At(head, s', i)] == At(head, s', i + 1) && prev'[At(head, s', i + 1)] == At(head, s', i)
    {
      if i < k {
        assert At(head, s', i) == At(head, s, i) && At(head, s', i + 1) == At(head, s, i + 1);
        NodesDiffer(head, s, i, k);
        NodesDiffer(head, s, i + 1, k + 1);
      } else if i > k + 1 {
        assert At(head, s', i) == At(head, s, i - 1) && At(head, s', i + 1) == At(head, s, i);
        NodesDiffer(head, s, k, i - 1);
        NodesDiffer(head, s, k + 1, i);
      }
    }
  }

  lemma LinkedAfterRemove(head: Node, s: seq<Node>, k: nat, next: map<Node, Node>, prev: map<Node, Node>)
    requires head !in s && Distinct(s) && k < |s|
    requires Linked(head, s, next, prev)
    ensures
      var a, b := At(head, s, k), At(head, s, k + 2);
      Linked(head, RemoveAt(s, k), next[a := b], prev[b := a])
  {
    var s' := RemoveAt(s, k);
    var a, b := At(head, s, k), At(head, s, k + 2);
    forall i | 0 <= i <= |s'|
      ensures next[a := b][At(head, s', i)] == At(head, s', i + 1) && prev[b := a][At(head, s', i + 1)] == At(head, s', i)
    {
      if i < k {
        assert At(head, s', i) == At(head, s, i) && At(head, s', i + 1) == At(head, s, i + 1);
        NodesDiffer(head, s, i, k);
        NodesDiffer(head, s, i + 1, k + 2);
      } else if i > k {
        assert At(head, s', i) == At(head, s, i + 1) && At(head, s', i + 1) == At(head, s, i + 2);
        NodesDiffer(head, s, k, i + 1);
        NodesDiffer(head, s, k + 2, i + 2);
      }
    }
  }

  lemma RingFromSnapshot(head: Node, s: seq<Node>, next: map<Node, Node>, prev: map<Node, Node>)
    requires head !in s && Distinct(s) && Linked(head, s, next, prev)
    requires forall x :: x in Nodes(head, s) ==> x.next == next[x] && x.prev == prev[x]
    ensures Ring(head, s)
  {
    forall i | 0 <= i <= |s|
      ensures At(head, s, i).next == At(head, s, i + 1) && At(head, s, i + 1).prev == At(head, s, i)
    {
      assert At(head, s, i) in Nodes(head, s) && At(head, s, i + 1) in Nodes(head, s);
    }
  }

  lemma RingAfterInsert(head: Node, s: seq<Node>, k: nat, n: Node, next: map<Node, Node>, prev: map<Node, Node>)
    requires head !in s && Distinct(s) && k <= |s| && n != head && n !in s
    requires Linked(head, s, next, prev)
    requires At(head, s, k).next == n && n.prev == At(head, s, k)
    requires n.next == At(head, s, k + 1) && At(head, s, k + 1).prev == n
    requires forall x :: x in Nodes(head, s) && x != At(head, s, k) ==> x.next == next[x]
    requires forall x :: x in Nodes(head, s) && x != At(head, s, k + 1) ==> x.prev == prev[x]
    ensures Ring(head, InsertAt(s, k, n))
  {
    var a, b := At(head, s, k), At(head, s, k + 1);
    InsertAdds(s, k, n);
    LinkedAfterInsert(head, s, k, n, next, prev);
    RingFromSnapshot(head, InsertAt(s, k, n), next[a := n][n := b], prev[b := n][n := a]);
  }

  lemma RingAfterRemove(head: Node, s: seq<Node>, k: nat, next: map<Node, Node>, prev: map<Node, Node>)
    requires head !in s && Distinct(s) && k < |s|
    requires Linked(head, s, next, prev)
    requires At(head, s, k).next == At(head, s, k + 2) && At(head, s, k + 2).prev == At(head, s, k)
    requires forall x :: x in Nodes(head, s) && x != s[k] && x != At(head, s, k) ==> x.next == next[x]
    requires forall x :: x in Nodes(head, s) && x != s[k] && x != At(head, s, k + 2) ==> x.prev == prev[x]
    ensures Ring(head, RemoveAt(s, k))
  {
    var a, b := At(head, s, k), At(head, s, k + 2);
    RemoveKeepsDistinct(s, k);
    LinkedAfterRemove(head, s, k, next, prev);
    RingFromSnapshot(head, RemoveAt(s, k), next[a := b], prev[b := a]);
  }

  /** rt_list_insert_before: n goes in front of l, which is the k-th node or, for k == |s|, the head. */
  method InsertBefore(l: Node, n: Node, ghost head: Node, ghost s: seq<Node>, ghost k: nat)
    requires Ring(head, s) && k <= |s| && l == At(head, s, k + 1)
    requires n != head && n !in s
    modifies n`next, n`prev, head`next, head`prev, s`next, s`prev
    ensures Ring(head, InsertAt(s, k, n))
  {
    ghost var next, prev := NextIn(Nodes(head, s)), PrevIn(Nodes(head, s));
    assert l.prev == At(head, s, k);
    l.prev.next := n;
    n.prev := l.prev;
    l.prev := n;
    n.next := l;
    RingAfterInsert(head, s, k, n, next, prev);
  }

  /** rt_list_remove: n leaves its ring and points at itself. */
  method Remove(n: Node, ghost head: Node, ghost s: seq<Node>, ghost k: nat)
    requires Ring(head, s) && k < |s| && n == s[k]
    modifies n`next, n`prev, head`next, head`prev, s`next, s`prev
    ensures Ring(head, RemoveAt(s, k))
    ensures n.next == n && n.prev == n
  {
    ghost var next, prev := NextIn(Nodes(head, s)), PrevIn(Nodes(head, s));
    assert n == At(head, s, k + 1) && n.prev == At(head, s, k) && n.next == At(head, s, k + 2);
    NodesDiffer(head, s, k, k + 1);
    NodesDiffer(head, s, k + 1, k + 2);
    n.next.prev := n.prev;
    n.prev.next := n.next;
    n.next, n.prev := n, n;
    RingAfterRemove(head, s, k, next, prev);
  }

  method IsEmpty(l: Node, ghost s: seq<Node>) returns (r: bool)
    requires Ring(l, s)
    ensures r <==> s == []
  {
    r := l.next == l;
    assert At(l, s, 0) == l;
    assert l.next == At(l, s, 1);
  }

  /** rt_list_len */
  method Len(l: Node, ghost s: seq<Node>) returns (len: nat)
    requires Ring(l, s)
    ensures len == |s|
  {
    len := 0;
    var p := l;
    while p.next != l
      invariant len <= |s| && p == At(l, s, len)
      decreases |s| - len
    {
      assert p.next == At(l, s, len + 1);
      p := p.next;
      len := len + 1;
    }
    assert p.next == At(l, s, len + 1);
  }

  /** rt_ipc_list_suspend: the thread is queued at the end, or before the first less urgent one. */
  method Suspend(list: Node, thread: Node, flag: Flag, ghost s: seq<Node>)
    requires Ring(list, s) && thread != list && thread !in s
    modifies thread`next, thread`prev, list`next, list`prev, s`next, s`prev
    ensures
      Ring(list, if flag == FIFO then s + [thread]
                 else InsertAt(s, Slot(old(Priorities(s)), old(thread.priority)), thread))
  {
    match flag
    case FIFO =>
      InsertBefore(list, thread, list, s, |s|);
      assert InsertAt(s, |s|, thread) == s + [thread];
    case PRIO =>
      ghost var prios := Priorities(s);
      var n := list.next;
      assert At(list, s, 0) == list;
      ghost var k := 0;
      while n != list
        invariant k <= |s| && n == At(list, s, k + 1)
        invariant Slot(prios, thread.priority) == k + Slot(prios[k..], thread.priority)
        decreases |s| - k
      {
        if thread.priority < n.priority {
          assert prios[k] == n.priority;
          InsertBefore(n, thread, list, s, k);
          break;
        }
        assert prios[k..][1..] == prios[k + 1..];
        assert n.next == At(list, s, k + 2);
        n := n.next;
        k := k + 1;
      }
      if n == list {
        assert k == |s|;
        InsertBefore(list, thread, list, s, |s|);
      }
  }

  /** rt_ipc_list_resume: the first thread of the list is taken off it. */
  method Resume(list: Node, ghost s: seq<Node>) returns (thread: Node)
    requires Ring(list, s) && s != []
    modifies list`next, list`prev, s`next, s`prev
    ensures thread == s[0] && Ring(list, s[1..])
  {
    thread := list.next;
    assert At(list, s, 0) == list;
    assert thread == At(list, s, 1);
    Remove(thread, list, s, 0);
    assert RemoveAt(s, 0) == s[1..];
  }

  /** The error of a thread is not part of the list. */
  method SetError(thread: Node, error: Err, ghost list: Node, ghost s: seq<Node>)
    requires Ring(list, s)
    modifies thread`error
    ensures Ring(list, s) && thread.error == error
  {
    thread.error := error;
  }

  /** rt_ipc_list_resume_all: every thread is taken off the list, in list order, and given an error. */
  method ResumeAll(list: Node, ghost s: seq<Node>) returns (resumed: seq<Node>)
    requires Ring(list, s)
    modifies list`next, list`prev, s`next, s`prev, s`error
    ensures resumed == s && Ring(list, []) && forall thread :: thread in s ==> thread.error == ERROR
  {
    resumed := [];
    var empty := IsEmpty(list, s);
    while !empty
      invariant |resumed| <= |s| && resumed == s[..|resumed|]
      invariant Ring(list, s[|resumed|..])
      invariant empty <==> resumed == s
      invariant forall thread :: thread in resumed ==> thread.error == ERROR
      decreases |s| - |resumed|
    {
      ghost var rest := s[|resumed|..];
      assert At(list, rest, 0) == list && list.next == At(list, rest, 1) == rest[0];
      SetError(list.next, ERROR, list, rest);
      var thread := Resume(list, rest);
      assert rest[1..] == s[|resumed| + 1..];
      resumed := resumed + [thread];
      empty := IsEmpty(list, s[|resumed|..]);
    }
    assert s[|s|..] == [];
  }
}
