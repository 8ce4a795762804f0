/** The nodes of a message queue: where each of them is, and what is in it, while threads copy
    messages in and out of nodes they have taken for themselves (rt-thread/src/ipc.c, rt_mq_init to
    rt_mq_control). */
module MessagePool {
  import opened Sequences
  import opened WaitQueue

  type Byte = b: nat | b < 256
  type Node = nat

  /** What a thread does with the node in its hands: it fills it with a message, of which done bytes
      are in place, or empties it, having read out and wanting want bytes.  The message of an emptied
      node is a record; no code reads it. */
  datatype Hold =
    | Filling(node: Node, message: seq<Byte>, done: nat, urgent: bool)
    | Draining(node: Node, message: seq<Byte>, out: seq<Byte>, want: nat)

  /** max nodes of size bytes each; text is the message that was put in each queued node. */
  datatype Pool = Pool(max: nat, size: nat, free: seq<Node>, queue: seq<Node>, memory: map<Node, seq<Byte>>,
                       text: map<Node, seq<Byte>>, holds: map<Tid, Hold>)

  // -------------------------------------------------------------------- the steps

  function Bytes(p: Pool, n: Node): seq<Byte> {
    if n in p.memory then p.memory[n] else []
  }

  function Text(p: Pool, n: Node): seq<Byte> {
    if n in p.text then p.text[n] else []
  }

  function Alloc(p: Pool, t: Tid, message: seq<Byte>, urgent: bool): Pool
    requires p.free != []
  {
    p.(free := p.free[1..], holds := p.holds[t := Filling(p.free[0], message, 0, urgent)])
  }

  /** One byte of the copy into the node; other threads may run between two bytes. */
  function PutByte(p: Pool, t: Tid): Pool
    requires t in p.holds && p.holds[t].Filling? && p.holds[t].done < |p.holds[t].message|
  {
    var h := p.holds[t];
    var bytes := Bytes(p, h.node);
    p.(memory := p.memory[h.node := if h.done < |bytes| then bytes[h.done := h.message[h.done]] else bytes],
       holds := p.holds[t := h.(done := h.done + 1)])
  }

  function Link(p: Pool, t: Tid): Pool
    requires t in p.holds && p.holds[t].Filling?
  {
    var h := p.holds[t];
    p.(queue := if h.urgent then [h.node] + p.queue else p.queue + [h.node],
       text := p.text[h.node := h.message], holds := p.holds - {t})
  }

  function Unlink(p: Pool, t: Tid, want: nat): Pool
    requires p.queue != []
  {
    p.(queue := p.queue[1..], holds := p.holds[t := Draining(p.queue[0], Text(p, p.queue[0]), [], want)])
  }

  function GetByte(p: Pool, t: Tid): Pool
    requires t in p.holds && p.holds[t].Draining?
  {
    var h := p.holds[t];
    var bytes := Bytes(p, h.node);
    p.(holds := p.holds[t := h.(out := h.out + [if |h.out| < |bytes| then bytes[|h.out|] else 0])])
  }

  function Release(p: Pool, t: Tid): Pool
    requires t in p.holds
  {
    p.(free := [p.holds[t].node] + p.free, holds := p.holds - {t})
  }

  function Reversed<T(!new)>(s: seq<T>): (r: seq<T>)
    ensures |r| == |s| && forall x :: x in r <==> x in s
  {
    if s == [] then [] else Reversed(s[1..]) + [s[0]]
  }

  /** A reset: every queued node is freed, the head first. */
  function Clear(p: Pool): Pool {
    p.(free := Reversed(p.queue) + p.free, queue := [])
  }

  // --------------------------------------------------------------- the invariant

  function Hands(holds: map<Tid, Hold>): set<Node> {
    set t | t in holds :: holds[t].node
  }

  predicate ExactlyOne(a: bool, b: bool, c: bool) {
    (a && !b && !c) || (!a && b && !c) || (!a && !b && c)
  }

  /** Each node of the pool is free, or queued, or in the hands of one thread. */
  ghost predicate Conserved(p: Pool) {
    && Distinct(p.free)
    && Distinct(p.queue)
    && (forall t, u :: t in p.holds && u in p.holds && t != u ==> p.holds[t].node != p.holds[u].node)
    && (forall n: Node :: n < p.max ==> ExactlyOne(n in p.free, n in p.queue, n in Hands(p.holds)))
    && (forall n: Node :: n >= p.max ==> n !in p.free && n !in p.queue && n !in Hands(p.holds))
  }

  ghost predicate Starts(message: seq<Byte>, bytes: seq<Byte>) {
    |message| <= |bytes| && bytes[..|message|] == message
  }

  /** The bytes are where they should be. */
  ghost predicate HoldIsRight(p: Pool, h: Hold)
    requires h.node in p.memory && |p.memory[h.node]| == p.size
  {
    match h
    case Filling(node, message, done, _) => done <= |message| <= p.size && Starts(message[..done], p.memory[node])
    case Draining(node, message, out, want) =>
      Starts(message, p.memory[node]) && Starts(out, p.memory[node]) && |out| <= want <= p.size
  }

  ghost predicate Intact(p: Pool) {
    && (forall n: Node :: n < p.max ==> n in p.memory && |p.memory[n]| == p.size)
    && (forall n :: n in p.queue ==> n < p.max && n in p.text && Starts(p.text[n], p.memory[n]))
    && (forall t :: t in p.holds ==> p.holds[t].node < p.max && HoldIsRight(p, p.holds[t]))
  }

  /** The messages in the queue, in the order in which they will be received. */
  function Messages(p: Pool): seq<seq<Byte>> {
    seq(|p.queue|, i requires 0 <= i < |p.queue| => Text(p, p.queue[i]))
  }

  lemma HandsGain(holds: map<Tid, Hold>, t: Tid, h: Hold)
    requires t !in holds || holds[t].node == h.node
    ensures Hands(holds[t := h]) == Hands(holds) + {h.node}
  {
    var holds' := holds[t := h];
    forall n | n in Hands(holds) + {h.node} ensures n in Hands(holds') {
      if n == h.node {
        assert holds'[t].node == n;
      } else {
        var u :| u in holds && holds[u].node == n;
        assert holds'[u].node == n;
      }
    }
  }

  lemma HandsLose(holds: map<Tid, Hold>, t: Tid)
    requires t in holds
    requires forall u :: u in holds && u != t ==> holds[u].node != holds[t].node
    ensures Hands(holds - {t}) == Hands(holds) - {holds[t].node}
  {
    forall n | n in Hands(holds) - {holds[t].node} ensures n in Hands(holds - {t}) {
      var u :| u in holds && holds[u].node == n;
      assert (holds - {t})[u].node == n;
    }
  }

  lemma HeldNodesAreInHands(p: Pool, t: Tid)
    requires t in p.holds
    ensures p.holds[t].node in Hands(p.holds)
  {
  }

  lemma {:induction false} ReversedIsDistinct<T(!new)>(s: seq<T>)
    requires Distinct(s)
    ensures Distinct(Reversed(s))
  {
    if s != [] {
      ReversedIsDistinct(s[1..]);
      assert s[0] !in s[1..];
    }
  }

  // ---------------------------------------------------- every step keeps it

  lemma FirstLeaves<T>(s: seq<T>)
    requires Distinct(s) && s != []
    ensures Distinct(s[1..]) && s[0] !in s[1..] && forall x :: x in s <==> x == s[0] || x in s[1..]
  {
    assert s == [s[0]] + s[1..];
  }

  lemma AllocConserves(p: Pool, t: Tid, message: seq<Byte>, urgent: bool)
    requires Conserved(p) && p.free != [] && t !in p.holds
    ensures Conserved(Alloc(p, t, message, urgent))
  {
    FirstLeaves(p.free);
    HandsGain(p.holds, t, Filling(p.free[0], message, 0, urgent));
    forall u | u in p.holds ensures p.holds[u].node != p.free[0] {
      HeldNodesAreInHands(p, u);
    }
  }

  lemma AllocKeeps(p: Pool, t: Tid, message: seq<Byte>, urgent: bool)
    requires Conserved(p) && Intact(p) && p.free != [] && t !in p.holds && |message| <= p.size
    ensures Conserved(Alloc(p, t, message, urgent)) && Intact(Alloc(p, t, message, urgent))
  {
    AllocConserves(p, t, message, urgent);
    FirstLeaves(p.free);
  }

  lemma UnlinkConserves(p: Pool, t: Tid, want: nat)
    requires Conserved(p) && p.queue != [] && t !in p.holds
    ensures Conserved(Unlink(p, t, want))
  {
    FirstLeaves(p.queue);
    HandsGain(p.holds, t, Draining(p.queue[0], Text(p, p.queue[0]), [], want));
    forall u | u in p.holds ensures p.holds[u].node != p.queue[0] {
      HeldNodesAreInHands(p, u);
    }
  }

  lemma UnlinkKeeps(p: Pool, t: Tid, want: nat)
    requires Conserved(p) && Intact(p) && p.queue != [] && t !in p.holds && want <= p.size
    ensures Conserved(Unlink(p, t, want)) && Intact(Unlink(p, t, want))
  {
    UnlinkConserves(p, t, want);
    FirstLeaves(p.queue);
  }

  lemma LinkConserves(p: Pool, t: Tid)
    requires Conserved(p) && t in p.holds && p.holds[t].Filling?
    ensures Conserved(Link(p, t))
  {
    HandsLose(p.holds, t);
    HeldNodesAreInHands(p, t);
  }

  lemma LinkIsIntact(p: Pool, t: Tid)
    requires Intact(p) && t in p.holds && p.holds[t].node !in p.queue
    requires p.holds[t].Filling? && p.holds[t].done == |p.holds[t].message|
    ensures Intact(Link(p, t))
  {
    var h := p.holds[t];
    assert HoldIsRight(p, h) && h.message[..h.done] == h.message;
    forall n | n in Link(p, t).queue ensures n < p.max && n in Link(p, t).text && Starts(Link(p, t).text[n], p.memory[n]) {
      assert n == h.node || n in p.queue;
    }
  }

  lemma LinkKeeps(p: Pool, t: Tid)
    requires Conserved(p) && Intact(p) && t in p.holds
    requires p.holds[t].Filling? && p.holds[t].done == |p.holds[t].message|
    ensures Conserved(Link(p, t)) && Intact(Link(p, t))
  {
    LinkConserves(p, t);
    HeldNodesAreInHands(p, t);
    LinkIsIntact(p, t);
  }

  lemma ReleaseConserves(p: Pool, t: Tid)
    requires Conserved(p) && t in p.holds
    ensures Conserved(Release(p, t))
  {
    HandsLose(p.holds, t);
    HeldNodesAreInHands(p, t);
    var n := p.holds[t].node;
    assert n !in p.free;
    forall m: Node | m < p.max
      ensures ExactlyOne(m in Release(p, t).free, m in p.queue, m in Hands(p.holds - {t}))
    {
      assert ExactlyOne(m in p.free, m in p.queue, m in Hands(p.holds));
    }
  }

  lemma ReleaseIsIntact(p: Pool, t: Tid)
    requires Intact(p) && t in p.holds
    ensures Intact(Release(p, t))
  {
    forall u | u in p.holds && u != t ensures p.holds[u].node < p.max && HoldIsRight(Release(p, t), p.holds[u]) {
      assert HoldIsRight(p, p.holds[u]);
    }
  }

  lemma ReleaseKeeps(p: Pool, t: Tid)
    requires Conserved(p) && Intact(p) && t in p.holds
    ensures Conserved(Release(p, t)) && Intact(Release(p, t))
  {
    ReleaseConserves(p, t);
    ReleaseIsIntact(p, t);
  }

  lemma DistinctConcat<T>(a: seq<T>, b: seq<T>)
    requires Distinct(a) && Distinct(b) && forall i :: 0 <= i < |a| ==> a[i] !in b
    ensures Distinct(a + b)
  {
  }

  lemma ClearKeeps(p: Pool)
    requires Conserved(p) && Intact(p)
    ensures Conserved(Clear(p)) && Intact(Clear(p))
  {
    ReversedIsDistinct(p.queue);
    forall i | 0 <= i < |Reversed(p.queue)| ensures Reversed(p.queue)[i] !in p.free {
      assert Reversed(p.queue)[i] in p.queue;
    }
    DistinctConcat(Reversed(p.queue), p.free);
  }

  /** Progress with a node one has in hand moves no node. */
  lemma HoldConserves(p: Pool, t: Tid, h: Hold, memory: map<Node, seq<Byte>>)
    requires Conserved(p) && t in p.holds && h.node == p.holds[t].node
    ensures Conserved(p.(holds := p.holds[t := h], memory := memory))
  {
    HandsGain(p.holds, t, h);
    HeldNodesAreInHands(p, t);
    assert Hands(p.holds[t := h]) == Hands(p.holds);
  }

  /** Only the thread that holds a node writes to it, so no byte it writes reaches another message. */
  lemma WriteIsPrivate(p: Pool, t: Tid, bytes: seq<Byte>, h: Hold)
    requires Conserved(p) && Intact(p) && t in p.holds && h.node == p.holds[t].node && |bytes| == p.size
    requires HoldIsRight(p.(memory := p.memory[h.node := bytes]), h)
    ensures Intact(p.(memory := p.memory[h.node := bytes], holds := p.holds[t := h]))
  {
    var p' := p.(memory := p.memory[h.node := bytes], holds := p.holds[t := h]);
    HeldNodesAreInHands(p, t);
    assert h.node !in p.queue;
    forall u | u in p'.holds ensures p'.holds[u].node < p'.max && HoldIsRight(p', p'.holds[u]) {
      if u != t {
        assert p.holds[u].node != h.node && HoldIsRight(p, p.holds[u]);
      }
    }
  }

  lemma PutByteKeeps(p: Pool, t: Tid)
    requires Conserved(p) && Intact(p) && t in p.holds
    requires p.holds[t].Filling? && p.holds[t].done < |p.holds[t].message|
    ensures p.holds[t].node in p.memory && p.holds[t].done < |p.memory[p.holds[t].node]|
    ensures Conserved(PutByte(p, t)) && Intact(PutByte(p, t))
  {
    var h, p' := p.holds[t], PutByte(p, t);
    var bytes := p.memory[h.node];
    assert HoldIsRight(p, h);
    assert bytes[h.done := h.message[h.done]][..h.done + 1] == bytes[..h.done] + [h.message[h.done]];
    assert h.message[..h.done + 1] == h.message[..h.done] + [h.message[h.done]];
    HoldConserves(p, t, h.(done := h.done + 1), p'.memory);
    WriteIsPrivate(p, t, bytes[h.done := h.message[h.done]], h.(done := h.done + 1));
  }

  lemma GetByteKeeps(p: Pool, t: Tid)
    requires Conserved(p) && Intact(p) && t in p.holds
    requires p.holds[t].Draining? && |p.holds[t].out| < p.holds[t].want
    ensures p.holds[t].node in p.memory && |p.holds[t].out| < |p.memory[p.holds[t].node]|
    ensures Conserved(GetByte(p, t)) && Intact(GetByte(p, t))
  {
    var h := p.holds[t];
    var bytes := p.memory[h.node];
    assert HoldIsRight(p, h);
    assert bytes[..|h.out| + 1] == bytes[..|h.out|] + [bytes[|h.out|]];
    var h' := h.(out := h.out + [bytes[|h.out|]]);
    HoldConserves(p, t, h', p.memory);
    assert p.memory[h.node := bytes] == p.memory;
    WriteIsPrivate(p, t, bytes, h');
  }

  // ------------------------------------------------------ what the steps mean

  /** Linking is where a message enters the queue: at the end, or at the head if it is urgent. */
  lemma LinkEnqueues(p: Pool, t: Tid)
    requires Conserved(p) && Intact(p) && t in p.holds && p.holds[t].Filling?
    requires p.holds[t].done == |p.holds[t].message|
    ensures
      var h := p.holds[t];
      Messages(Link(p, t)) == if h.urgent then [h.message] + Messages(p) else Messages(p) + [h.message]
  {
    HeldNodesAreInHands(p, t);
    TextsStay(p, p.holds[t].node, p.holds[t].message);
  }

  lemma TextsStay(p: Pool, n: Node, message: seq<Byte>)
    requires n !in p.queue
    ensures Messages(p.(text := p.text[n := message])) == Messages(p)
  {
  }

  /** Unlinking is where the first message leaves it. */
  lemma UnlinkDequeues(p: Pool, t: Tid, want: nat)
    requires Conserved(p) && Intact(p) && p.queue != []
    ensures Messages(p) == [Unlink(p, t, want).holds[t].message] + Messages(Unlink(p, t, want))
  {
  }

  /** What has been read from the node is what was sent, on the bytes both have. */
  ghost predicate Agree(out: seq<Byte>, message: seq<Byte>) {
    out <= message || message <= out
  }

  lemma DrainedIsSent(p: Pool, t: Tid)
    requires Intact(p) && t in p.holds && p.holds[t].Draining?
    ensures Agree(p.holds[t].out, p.holds[t].message)
  {
    var bytes := p.memory[p.holds[t].node];
    assert p.holds[t].out <= bytes && p.holds[t].message <= bytes;
  }
}
