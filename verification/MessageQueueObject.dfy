/** The message queue as the code keeps it: nodes of a pool, chained through their first word into a
    free list and a message list (rt-thread/src/ipc.c, rt_mq_init to rt_mq_control).  Every operation
    is proved to be the step of the machine in MessageQueue that it stands for. */
module MessageQueueObject {
  import opened Sequences
  import opened WaitQueue
  import opened MessagePool
  import opened MessageQueue

  const NULL: int := -1
  const ENTRY_MAX: nat := 65535
  const LINK_SIZE: nat := 4  // sizeof(struct rt_mq_message) on a 32-bit machine

  // --------------------------------------------------------------------- chains

  /** What the link of the i-th node of a list is. */
  function LinkAt(nodes: seq<Node>, i: nat): int {
    if i < |nodes| then nodes[i] else NULL
  }

  /** Following next from first visits the nodes in order, and ends with NULL. */
  predicate Chain(next: seq<int>, first: int, nodes: seq<Node>) {
    && first == LinkAt(nodes, 0)
    && forall i :: 0 <= i < |nodes| ==> nodes[i] < |next| && next[nodes[i]] == LinkAt(nodes, i + 1)
  }

  lemma ChainRest(next: seq<int>, first: int, nodes: seq<Node>)
    requires Chain(next, first, nodes) && nodes != []
    ensures nodes[0] < |next| && Chain(next, next[nodes[0]], nodes[1..])
  {
  }

  lemma ChainFrame(next: seq<int>, first: int, nodes: seq<Node>, n: Node, link: int)
    requires Chain(next, first, nodes) && n !in nodes && n < |next|
    ensures Chain(next[n := link], first, nodes)
  {
  }

  lemma ChainPush(next: seq<int>, first: int, nodes: seq<Node>, n: Node)
    requires Chain(next, first, nodes) && n !in nodes && n < |next|
    ensures Chain(next[n := first], n, [n] + nodes)
  {
    var nodes' := [n] + nodes;
    forall i | 0 <= i < |nodes'|
      ensures nodes'[i] < |next| && next[n := first][nodes'[i]] == LinkAt(nodes', i + 1)
    {
      if i > 0 {
        assert nodes'[i] == nodes[i - 1] && LinkAt(nodes', i + 1) == LinkAt(nodes, i);
      }
    }
  }

  lemma ChainAppend(next: seq<int>, first: int, nodes: seq<Node>, n: Node)
    requires Chain(next, first, nodes) && Distinct(nodes) && nodes != []
    requires n !in nodes && n < |next| && next[n] == NULL
    ensures nodes[|nodes| - 1] < |next| && Chain(next[nodes[|nodes| - 1] := n], first, nodes + [n])
  {
  }

  /** A list of distinct nodes below max is no longer than max. */
  lemma {:induction false} Pigeonhole(nodes: seq<Node>, max: nat)
    requires Distinct(nodes) && forall n :: n in nodes ==> n < max
    ensures |nodes| <= max
    decreases max
  {
    if max == 0 {
      assert forall i :: 0 <= i < |nodes| ==> nodes[i] in nodes;
    } else {
      var rest := Without(nodes, max - 1);
      WithoutIsSubsequence(nodes, max - 1);
      Pigeonhole(rest, max - 1);
      if max - 1 in nodes {
        var k :| 0 <= k < |nodes| && nodes[k] == max - 1;
        WithoutIsRemoveAt(nodes, k);
      }
    }
  }

  /** The concrete lists: the links, the pointers into them, and the message count. */
  datatype Lists = Lists(next: seq<int>, head: int, tail: int, free: int, entry: nat)

  /** The lists hold the nodes of the pool in order; a node being filled for the end of the queue
      already has its link cleared. */
  ghost predicate Linked(l: Lists, p: Pool) {
    && |l.next| == p.max <= ENTRY_MAX
    && Chain(l.next, l.free, p.free)
    && Chain(l.next, l.head, p.queue)
    && l.tail == (if p.queue == [] then NULL else p.queue[|p.queue| - 1])
    && l.entry == |p.queue|
    && forall t :: t in p.holds && p.holds[t].Filling? && !p.holds[t].urgent ==>
         p.holds[t].node < p.max && l.next[p.holds[t].node] == NULL
  }

  function PopFree(l: Lists): Lists
    requires 0 <= l.free < |l.next|
  {
    l.(free := l.next[l.free])
  }

  function PushFree(l: Lists, msg: Node): Lists
    requires msg < |l.next|
  {
    l.(next := l.next[msg := l.free], free := msg)
  }

  function PopHead(l: Lists): Lists
    requires 0 <= l.head < |l.next| && l.entry > 0
  {
    l.(head := l.next[l.head], tail := if l.tail == l.head then NULL else l.tail, entry := l.entry - 1)
  }

  function Append(l: Lists, msg: Node): Lists
    requires l.tail != NULL ==> 0 <= l.tail < |l.next|
  {
    l.(next := if l.tail != NULL then l.next[l.tail := msg] else l.next, tail := msg,
       head := if l.head == NULL then msg else l.head, entry := l.entry + 1)
  }

  function Prepend(l: Lists, msg: Node): Lists
    requires msg < |l.next|
  {
    l.(next := l.next[msg := l.head], head := msg, tail := if l.tail == NULL then msg else l.tail, entry := l.entry + 1)
  }

  lemma HeldIsApart(p: Pool, t: Tid)
    requires Conserved(p) && t in p.holds
    ensures p.holds[t].node < p.max && p.holds[t].node !in p.free && p.holds[t].node !in p.queue
  {
    HeldNodesAreInHands(p, t);
  }

  lemma AllocIsLinked(l: Lists, p: Pool, t: Tid, message: seq<Byte>, urgent: bool)
    requires Linked(l, p) && Conserved(p) && p.free != [] && t !in p.holds
    ensures
      && 0 <= l.free < p.max && l.free == p.free[0]
      && Linked(PopFree(l).(next := if urgent then l.next else l.next[l.free := NULL]), Alloc(p, t, message, urgent))
  {
    FirstLeaves(p.free);
    ChainRest(l.next, l.free, p.free);
    ChainFrame(l.next, l.next[l.free], p.free[1..], l.free, NULL);
    ChainFrame(l.next, l.head, p.queue, l.free, NULL);
  }

  lemma UnlinkIsLinked(l: Lists, p: Pool, t: Tid, want: nat)
    requires Linked(l, p) && Conserved(p) && Intact(p) && p.queue != []
    ensures
      && 0 <= l.head < p.max && l.head == p.queue[0] && l.entry > 0
      && Linked(PopHead(l), Unlink(p, t, want))
  {
    FirstLeaves(p.queue);
    ChainRest(l.next, l.head, p.queue);
    assert |p.queue| > 1 ==> p.queue[|p.queue| - 1] in p.queue[1..];
  }

  /** The count of messages stays below the limit, because the node that is linked was not counted. */
  lemma EntryIsBelowMax(l: Lists, p: Pool, t: Tid)
    requires Linked(l, p) && Conserved(p) && t in p.holds
    ensures l.entry < p.max
  {
    HeldIsApart(p, t);
    var all := [p.holds[t].node] + p.queue;
    assert Distinct(all);
    Pigeonhole(all, p.max);
  }

  lemma LinkAtEndIsLinked(l: Lists, p: Pool, t: Tid)
    requires Linked(l, p) && Conserved(p) && t in p.holds && p.holds[t].Filling? && !p.holds[t].urgent
    ensures
      var msg := p.holds[t].node;
      && (l.tail != NULL ==> 0 <= l.tail < p.max)
      && Linked(Append(l, msg), MessagePool.Link(p, t))
  {
    HeldIsApart(p, t);
    var msg := p.holds[t].node;
    if p.queue != [] {
      ChainAppend(l.next, l.head, p.queue, msg);
      var last := p.queue[|p.queue| - 1];
      assert last in p.queue;
      ChainFrame(l.next, l.free, p.free, last, msg);
      forall u | u in p.holds ensures p.holds[u].node != last {
        HeldIsApart(p, u);
      }
    }
  }

  /** Writing to the link of a node in one's own hands does not touch the nodes in others'. */
  ghost predicate FillersEnd(next: seq<int>, p: Pool) {
    forall t :: t in p.holds && p.holds[t].Filling? && !p.holds[t].urgent ==>
      p.holds[t].node < |next| && next[p.holds[t].node] == NULL
  }

  lemma FillersKeepEnds(next: seq<int>, p: Pool, t: Tid, link: int)
    requires FillersEnd(next, p) && t in p.holds && p.holds[t].node < |next|
    requires forall u :: u in p.holds && u != t ==> p.holds[u].node != p.holds[t].node
    ensures FillersEnd(next[p.holds[t].node := link], p.(holds := p.holds - {t}))
  {
  }

  lemma PrependChains(l: Lists, p: Pool, msg: Node)
    requires Linked(l, p) && msg < p.max && msg !in p.queue && msg !in p.free
    ensures
      var l' := Prepend(l, msg);
      && Chain(l'.next, l'.free, p.free) && Chain(l'.next, l'.head, [msg] + p.queue)
      && l'.tail == ([msg] + p.queue)[|p.queue|] && l'.entry == |p.queue| + 1
  {
    ChainPush(l.next, l.head, p.queue, msg);
    ChainFrame(l.next, l.free, p.free, msg, l.head);
  }

  lemma LinkAtHeadIsLinked(l: Lists, p: Pool, t: Tid)
    requires Linked(l, p) && Conserved(p) && t in p.holds && p.holds[t].Filling? && p.holds[t].urgent
    ensures
      var msg := p.holds[t].node;
      && msg < p.max
      && Linked(Prepend(l, msg), MessagePool.Link(p, t))
  {
    HeldIsApart(p, t);
    PrependChains(l, p, p.holds[t].node);
    FillersKeepEnds(l.next, p, t, l.head);
    assert FillersEnd(Prepend(l, p.holds[t].node).next, MessagePool.Link(p, t));
  }

  lemma ReleaseIsLinked(l: Lists, p: Pool, t: Tid)
    requires Linked(l, p) && Conserved(p) && t in p.holds
    ensures
      var msg := p.holds[t].node;
      && msg < p.max
      && Linked(PushFree(l, msg), Release(p, t))
  {
    HeldIsApart(p, t);
    var msg := p.holds[t].node;
    ChainPush(l.next, l.free, p.free, msg);
    ChainFrame(l.next, l.head, p.queue, msg, l.free);
  }

  /** One turn of the loop in a reset: the first message becomes the first free node. */
  function FreeHead(p: Pool): Pool
    requires p.queue != []
  {
    p.(queue := p.queue[1..], free := [p.queue[0]] + p.free)
  }

  lemma FreeHeadConserves(p: Pool)
    requires Conserved(p) && p.queue != []
    ensures Conserved(FreeHead(p)) && Clear(FreeHead(p)) == Clear(p)
  {
    FirstLeaves(p.queue);
    var p' := FreeHead(p);
    assert p.queue[0] !in p.free;
    forall n: Node | n < p.max ensures ExactlyOne(n in p'.free, n in p'.queue, n in Hands(p'.holds)) {
      assert ExactlyOne(n in p.free, n in p.queue, n in Hands(p.holds));
    }
    assert Reversed(p.queue[1..]) + ([p.queue[0]] + p.free) == Reversed(p.queue) + p.free;
  }

  lemma FreeHeadIsLinked(l: Lists, p: Pool)
    requires Linked(l, p) && Conserved(p) && l.head != NULL
    ensures p.queue != [] && 0 <= l.head < p.max && l.entry > 0
    ensures Linked(PushFree(PopHead(l), l.head), FreeHead(p))
    ensures Conserved(FreeHead(p)) && Clear(FreeHead(p)) == Clear(p)
  {
    FirstLeaves(p.queue);
    FreeHeadConserves(p);
    ChainRest(l.next, l.head, p.queue);
    ChainPush(l.next, l.free, p.free, l.head);
    ChainFrame(l.next, l.next[l.head], p.queue[1..], l.head, l.free);
    assert |p.queue| > 1 ==> p.queue[|p.queue| - 1] in p.queue[1..];
  }

  /** Progress of a copy does not concern the lists. */
  lemma CopyIsLinked(l: Lists, p: Pool, t: Tid, h: Hold, memory: map<Node, seq<Byte>>)
    requires Linked(l, p) && t in p.holds && h.node == p.holds[t].node && h.Filling? == p.holds[t].Filling?
    requires h.Filling? ==> h.urgent == p.holds[t].urgent
    ensures Linked(l, p.(holds := p.holds[t := h], memory := memory))
  {
  }

  // --------------------------------------------------------------------- layout

  /** RT_ALIGN to RT_ALIGN_SIZE */
  function Align(size: nat): nat {
    (size + 3) / 4 * 4
  }

  /** Node k lies at k strides into the pool: inside it, and apart from every other node. */
  lemma NodesAreApart(size: nat, poolSize: nat, k: nat, j: nat)
    requires k < j < poolSize / (size + LINK_SIZE)
    ensures
      var stride := size + LINK_SIZE;
      k * stride + stride <= j * stride && j * stride + stride <= poolSize
  {
    var stride := size + LINK_SIZE;
    var max := poolSize / stride;
    assert poolSize == max * stride + poolSize % stride;
    MulMonotonic(k + 1, j, stride);
    MulMonotonic(j + 1, max, stride);
  }

  lemma MulMonotonic(a: nat, b: nat, c: nat)
    requires a <= b
    ensures a * c <= b * c
  {
  }

  // ------------------------------------------------------------------ the object

  /** The loop of rt_mq_init: each node is pushed in front of the list of those before it. */
  method ChainPool(max: nat) returns (links: array<int>, list: int)
    ensures fresh(links) && links.Length == max && Chain(links[..], list, Descending(max))
  {
    links := new int[max];
    list := NULL;
    for temp := 0 to max
      invariant Chain(links[..], list, Descending(temp))
    {
      ChainPush(links[..], list, Descending(temp), temp);
      links[temp] := list;
      list := temp;
      assert Descending(temp + 1) == [temp] + Descending(temp);
    }
  }

  class RtMessageQueue {
    const messageSize: nat
    const maxMessages: nat
    const flag: Flag
    const next: array<int>           // the link word of each node
    const data: array<seq<Byte>>     // the bytes behind it
    var entry: nat
    var head: int
    var tail: int
    var free: int
    var receivers: Waits
    var senders: Waits
    ghost var pool: Pool

    ghost function Abs(): State
      reads this
    {
      State(pool, flag, receivers, senders)
    }

    /** The lists as they are. */
    ghost function Now(): Lists
      reads this, next
    {
      Lists(next[..], head, tail, free, entry)
    }

    ghost predicate Valid()
      reads this, next, data
    {
      && next.Length == data.Length == maxMessages == pool.max
      && messageSize == pool.size
      && next != data as object
      && Linked(Now(), pool)
      && forall n: Node :: n < pool.max ==> n in pool.memory && data[n] == pool.memory[n]
    }

    /** What MessageQueue proves of every reachable state. */
    ghost predicate Sound()
      reads this
    {
      Conserved(pool) && Intact(pool)
    }

    /** rt_mq_init over a pool of the given size; the size of a message and their number are kept in 16 bits. */
    constructor (messageSize: nat, poolSize: nat, flag: Flag)
      ensures Valid() && Initial(Abs())
      ensures this.messageSize == Align(messageSize) % 0x1_0000
      ensures maxMessages == poolSize / (this.messageSize + LINK_SIZE) % 0x1_0000
    {
      var size := Align(messageSize) % 0x1_0000;
      var max := poolSize / (size + LINK_SIZE) % 0x1_0000;
      this.messageSize, maxMessages, this.flag := size, max, flag;
      var links, list := ChainPool(max);
      next, free := links, list;
      var bytes := new seq<Byte>[max](_ => seq(size, _ => 0));
      data := bytes;
      head, tail, entry, receivers, senders := NULL, NULL, 0, NOBODY, NOBODY;
      pool := Pool(max, size, Descending(max), [], map n: Node | 0 <= n < max :: bytes[n], map[], map[]);
      new;
      InitialIsInv(Abs());
    }

    /** The end of the first region of a send: a node leaves the free list.  What follows for a message
        that is not urgent clears the link of the node, outside any region. */
    method TakeFree(t: Tid, message: seq<Byte>, urgent: bool) returns (msg: Node)
      requires Valid() && Sound() && pool.free != [] && t !in pool.holds && |message| <= messageSize
      modifies this`free, this`pool, next
      ensures Valid() && pool == Alloc(old(pool), t, message, urgent) && msg == pool.holds[t].node
    {
      AllocIsLinked(Now(), pool, t, message, urgent);
      msg := free;
      free := next[msg];
      if !urgent {
        next[msg] := NULL;
        assert next[..] == old(next[..])[msg := NULL];
      }
      pool := Alloc(pool, t, message, urgent);
    }

    /** rt_mq_send_wait from the test of the loop on, up to the copy or to rt_schedule */
    method TrySend(t: Tid, message: seq<Byte>, timeout: int, prio: map<Tid, int>) returns (outcome: Outcome, msg: Node)
      requires Valid() && Sound() && t !in pool.holds && |message| <= messageSize
      modifies this, next
      ensures Valid() && (Abs(), outcome) == SendOrWait(old(Abs()), t, message, timeout, prio)
      ensures outcome == Copying ==> t in pool.holds && msg == pool.holds[t].node
    {
      msg := 0;
      if free == NULL {
        if timeout == 0 {
          return Returns(EFULL), msg;
        }
        senders := senders.Suspend(t, flag, prio);
        return Suspended, msg;
      }
      msg := TakeFree(t, message, false);
      return Copying, msg;
    }

    /** The rest of rt_mq_send_wait after rt_schedule, up to the copy or the next rt_schedule */
    method SendAgain(t: Tid, message: seq<Byte>, timeout: int, prio: map<Tid, int>) returns (outcome: Outcome, msg: Node)
      requires Valid() && Sound() && t !in pool.holds && Enabled(Abs(), Op.SendAgain(t, message, timeout, prio))
      modifies this, next
      ensures Valid() && (Abs(), outcome) == Step(old(Abs()), Op.SendAgain(t, message, timeout, prio))
      ensures outcome == Copying ==> t in pool.holds && msg == pool.holds[t].node
    {
      msg := 0;
      var error := senders.resumed[t];
      senders := senders.Rerun(t);
      if error != EOK {
        return Returns(error), msg;
      }
      outcome, msg := TrySend(t, message, timeout, prio);
    }

    /** rt_mq_urgent up to the copy */
    method Urgent(t: Tid, message: seq<Byte>) returns (outcome: Outcome, msg: Node)
      requires Valid() && Sound() && Enabled(Abs(), Op.Urgent(t, message))
      modifies this`free, this`pool, next
      ensures Valid() && (Abs(), outcome) == Step(old(Abs()), Op.Urgent(t, message))
      ensures outcome == Copying ==> t in pool.holds && msg == pool.holds[t].node
    {
      msg := 0;
      if |message| > messageSize {
        return Returns(ERROR), msg;
      }
      if free == NULL {
        return Returns(EFULL), msg;
      }
      msg := TakeFree(t, message, true);
      return Copying, msg;
    }

    /** One byte of the rt_memcpy of a send */
    method CopyIn(t: Tid, msg: Node, message: seq<Byte>, k: nat)
      requires Valid() && Sound() && Enabled(Abs(), Op.CopyIn(t))
      requires msg == pool.holds[t].node && message == pool.holds[t].message && k == pool.holds[t].done
      modifies this`pool, data
      ensures Valid() && (Abs(), Copying) == Step(old(Abs()), Op.CopyIn(t))
    {
      PutByteKeeps(pool, t);
      HeldIsApart(pool, t);
      ghost var pool' := PutByte(pool, t);
      CopyIsLinked(Now(), pool, t, pool'.holds[t], pool'.memory);
      data[msg] := data[msg][k := message[k]];
      pool := pool';
    }

    /** The list surgery of a send.  The overflow exit is never taken. */
    method AppendNode(msg: Node)
      requires msg < next.Length && entry < ENTRY_MAX && (tail != NULL ==> 0 <= tail < next.Length)
      modifies this`head, this`tail, this`entry, next
      ensures Now() == Append(old(Now()), msg)
    {
      if tail != NULL {
        next[tail] := msg;
        assert next[..] == old(next[..])[tail := msg];
      }
      tail := msg;
      if head == NULL {
        head := msg;
      }
      if entry < ENTRY_MAX {
        entry := entry + 1;
      } else {
        assert false;
      }
    }

    /** The list surgery of an urgent send.  The overflow exit is never taken. */
    method PrependNode(msg: Node)
      requires msg < next.Length && entry < ENTRY_MAX
      modifies this`head, this`tail, this`entry, next
      ensures Now() == Prepend(old(Now()), msg)
    {
      next[msg] := head;
      assert next[..] == old(next[..])[msg := head];
      head := msg;
      if tail == NULL {
        tail := msg;
      }
      if entry < ENTRY_MAX {
        entry := entry + 1;
      } else {
        assert false;
      }
    }

    /** The end of the last region of a send: a waiting receiver is resumed. */
    method WakeReceiver()
      modifies this`receivers
      ensures receivers == Woken(old(receivers))
    {
      if receivers.waiting != [] {
        receivers := receivers.ResumeFirst();
      }
    }

    method WakeSender()
      modifies this`senders
      ensures senders == Woken(old(senders))
    {
      if senders.waiting != [] {
        senders := senders.ResumeFirst();
      }
    }

    method Enqueue(t: Tid, msg: Node)
      requires Valid() && Conserved(pool) && t in pool.holds && pool.holds[t].Filling?
      requires !pool.holds[t].urgent && msg == pool.holds[t].node
      modifies this`head, this`tail, this`entry, this`pool, next
      ensures Valid() && pool == MessagePool.Link(old(pool), t)
    {
      EntryIsBelowMax(Now(), pool, t);
      LinkAtEndIsLinked(Now(), pool, t);
      AppendNode(msg);
      pool := MessagePool.Link(pool, t);
    }

    method EnqueueUrgent(t: Tid, msg: Node)
      requires Valid() && Conserved(pool) && t in pool.holds && pool.holds[t].Filling?
      requires pool.holds[t].urgent && msg == pool.holds[t].node
      modifies this`head, this`tail, this`entry, this`pool, next
      ensures Valid() && pool == MessagePool.Link(old(pool), t)
    {
      EntryIsBelowMax(Now(), pool, t);
      LinkAtHeadIsLinked(Now(), pool, t);
      PrependNode(msg);
      pool := MessagePool.Link(pool, t);
    }

    /** The last region of rt_mq_send_wait */
    method LinkAtEnd(t: Tid, msg: Node) returns (outcome: Outcome)
      requires Valid() && Sound() && Enabled(Abs(), Op.Link(t)) && msg == pool.holds[t].node && !pool.holds[t].urgent
      modifies this, next
      ensures Valid() && (Abs(), outcome) == Step(old(Abs()), Op.Link(t))
    {
      Enqueue(t, msg);
      WakeReceiver();
      return Returns(EOK);
    }

    /** The last region of rt_mq_urgent */
    method LinkAtHead(t: Tid, msg: Node) returns (outcome: Outcome)
      requires Valid() && Sound() && Enabled(Abs(), Op.Link(t)) && msg == pool.holds[t].node && pool.holds[t].urgent
      modifies this, next
      ensures Valid() && (Abs(), outcome) == Step(old(Abs()), Op.Link(t))
    {
      EnqueueUrgent(t, msg);
      WakeReceiver();
      return Returns(EOK);
    }

    /** The list surgery of a receive */
    method PopNode() returns (msg: Node)
      requires 0 <= head < next.Length && entry > 0
      modifies this`head, this`tail, this`entry
      ensures Now() == PopHead(old(Now())) && msg == old(head)
    {
      msg := head;
      head := next[msg];
      if tail == msg {
        tail := NULL;
      }
      if entry > 0 {
        entry := entry - 1;
      }
    }

    method PushNode(msg: Node)
      requires msg < next.Length
      modifies this`free, next
      ensures Now() == PushFree(old(Now()), msg)
    {
      next[msg] := free;
      assert next[..] == old(next[..])[msg := free];
      free := msg;
    }

    /** rt_mq_recv from the test of the loop on, up to the copy or to rt_schedule */
    method TryRecv(t: Tid, size: nat, timeout: int, prio: map<Tid, int>) returns (outcome: Outcome, msg: Node)
      requires Valid() && Sound() && t !in pool.holds
      modifies this
      ensures Valid() && (Abs(), outcome) == RecvOrWait(old(Abs()), t, size, timeout, prio)
      ensures outcome == Copying ==> t in pool.holds && msg == pool.holds[t].node
    {
      msg := 0;
      if entry == 0 {
        if timeout == 0 {
          return Returns(ETIMEOUT), msg;
        }
        receivers := receivers.Suspend(t, flag, prio);
        return Suspended, msg;
      }
      ghost var want := if size > messageSize then messageSize else size;
      UnlinkIsLinked(Now(), pool, t, want);
      msg := PopNode();
      pool := Unlink(pool, t, want);
      return Copying, msg;
    }

    /** The rest of rt_mq_recv after rt_schedule, up to the copy or the next rt_schedule */
    method RecvAgain(t: Tid, size: nat, timeout: int, prio: map<Tid, int>) returns (outcome: Outcome, msg: Node)
      requires Valid() && Sound() && t !in pool.holds && Enabled(Abs(), Op.RecvAgain(t, size, timeout, prio))
      modifies this
      ensures Valid() && (Abs(), outcome) == Step(old(Abs()), Op.RecvAgain(t, size, timeout, prio))
      ensures outcome == Copying ==> t in pool.holds && msg == pool.holds[t].node
    {
      msg := 0;
      var error := receivers.resumed[t];
      receivers := receivers.Rerun(t);
      if error != EOK {
        return Returns(error), msg;
      }
      outcome, msg := TryRecv(t, size, timeout, prio);
    }

    /** One byte of the rt_memcpy of a receive */
    method CopyOut(t: Tid, msg: Node, k: nat) returns (byte: Byte)
      requires Valid() && Sound() && Enabled(Abs(), Op.CopyOut(t)) && msg == pool.holds[t].node && k == |pool.holds[t].out|
      modifies this`pool
      ensures Valid() && (Abs(), Copying) == Step(old(Abs()), Op.CopyOut(t))
      ensures t in pool.holds && pool.holds[t].Draining? && pool.holds[t].out == old(pool.holds[t].out) + [byte]
    {
      HeldIsApart(pool, t);
      ghost var pool' := GetByte(pool, t);
      CopyIsLinked(Now(), pool, t, pool'.holds[t], pool'.memory);
      byte := data[msg][k];
      pool := pool';
    }

    method PutBack(t: Tid, msg: Node)
      requires Valid() && Conserved(pool) && t in pool.holds && msg == pool.holds[t].node
      modifies this`free, this`pool, next
      ensures Valid() && pool == Release(old(pool), t)
    {
      ReleaseIsLinked(Now(), pool, t);
      PushNode(msg);
      pool := Release(pool, t);
    }

    /** The last region of rt_mq_recv */
    method Return(t: Tid, msg: Node) returns (outcome: Outcome)
      requires Valid() && Sound() && Enabled(Abs(), Op.Return(t)) && msg == pool.holds[t].node
      modifies this, next
      ensures Valid() && (Abs(), outcome) == Step(old(Abs()), Op.Return(t))
    {
      PutBack(t, msg);
      WakeSender();
      return Returns(EOK);
    }

    /** One turn of the loop of a reset; the count is set after the loop. */
    method FreeOne()
      requires next.Length == pool.max && head != NULL && Conserved(pool)
      requires Linked(Now().(entry := |pool.queue|), pool)
      modifies this`head, this`tail, this`free, this`pool, next
      ensures old(pool).queue != [] && pool == FreeHead(old(pool)) && Linked(Now().(entry := |pool.queue|), pool)
      ensures Conserved(pool) && Clear(pool) == Clear(old(pool))
    {
      FreeHeadIsLinked(Now().(entry := |pool.queue|), pool);
      var msg := head;
      head := next[msg];
      if tail == msg {
        tail := NULL;
      }
      PushNode(msg);
      pool := FreeHead(pool);
    }

    /** The loop of a reset: every message goes back to the free list, the first one first. */
    method FreeMessages()
      requires next.Length == pool.max && Linked(Now(), pool) && Conserved(pool)
      modifies this`head, this`tail, this`free, this`pool, next
      ensures pool == Clear(old(pool)) && Linked(Now().(entry := 0), pool)
    {
      ghost var cleared := Clear(pool);
      while head != NULL
        invariant next.Length == pool.max && Conserved(pool) && Clear(pool) == cleared
        invariant Linked(Now().(entry := |pool.queue|), pool)
        decreases |pool.queue|
      {
        FreeOne();
      }
      assert pool.queue == [] && Reversed(pool.queue) + pool.free == pool.free;
    }

    method ResumeEverybody()
      modifies this`receivers, this`senders
      ensures receivers == old(receivers).ResumeAll() && senders == old(senders).ResumeAll()
    {
      receivers := receivers.ResumeAll();
      senders := senders.ResumeAll();
    }

    method DropMessages()
      requires Valid() && Sound()
      modifies this`head, this`tail, this`free, this`entry, this`pool, next
      ensures Valid() && pool == Clear(old(pool))
    {
      FreeMessages();
      entry := 0;
    }

    method ResumeAndDrop()
      requires Valid() && Sound()
      modifies this, next
      ensures Valid() && Abs() == Emptied(old(Abs()))
    {
      ResumeEverybody();
      DropMessages();
    }

    /** rt_mq_control with RT_IPC_CMD_RESET */
    method Reset() returns (outcome: Outcome)
      requires Valid() && Sound()
      modifies this, next
      ensures Valid() && (Abs(), outcome) == Step(old(Abs()), Op.Reset)
    {
      ResetEmpties(Abs());
      ResumeAndDrop();
      return Returns(EOK);
    }
  }
}
