/** The message queue (rt-thread/src/ipc.c, rt_mq_init to rt_mq_control): whole runs. */
module MessageQueue {
  import opened Sequences
  import opened WaitQueue
  import opened MessagePool

  datatype State = State(pool: Pool, flag: Flag, receivers: Waits, senders: Waits)

  /** Each operation is one region that runs with interrupts disabled, or one byte of a copy, which
      runs with interrupts enabled.  Again is what follows the return of rt_schedule. */
  datatype Op =
    | Send(t: Tid, message: seq<Byte>, timeout: int, prio: map<Tid, int>)
    | SendAgain(t: Tid, message: seq<Byte>, timeout: int, prio: map<Tid, int>)
    | Urgent(t: Tid, message: seq<Byte>)
    | CopyIn(t: Tid)
    | Link(t: Tid)
    | Recv(t: Tid, size: nat, timeout: int, prio: map<Tid, int>)
    | RecvAgain(t: Tid, size: nat, timeout: int, prio: map<Tid, int>)
    | CopyOut(t: Tid)
    | Return(t: Tid)
    | Reset
    | ExpireSender(t: Tid)
    | ExpireReceiver(t: Tid)

  predicate Idle(s: State, t: Tid) {
    t !in s.pool.holds && !s.senders.Has(t) && !s.receivers.Has(t)
  }

  predicate Fills(s: State, t: Tid) {
    t in s.pool.holds && s.pool.holds[t].Filling?
  }

  predicate Drains(s: State, t: Tid) {
    t in s.pool.holds && s.pool.holds[t].Draining?
  }

  /** rt_mq_send_wait looks at the size of the message before anything else. */
  predicate Enabled(s: State, op: Op) {
    match op
    case Send(t, message, _, _) => Idle(s, t) && 0 < |message|
    case Urgent(t, message) => Idle(s, t) && 0 < |message|
    case SendAgain(t, message, _, _) => t in s.senders.resumed && 0 < |message| <= s.pool.size
    case CopyIn(t) => Fills(s, t) && s.pool.holds[t].done < |s.pool.holds[t].message|
    case Link(t) => Fills(s, t) && s.pool.holds[t].done == |s.pool.holds[t].message|
    case Recv(t, size, _, _) => Idle(s, t) && 0 < size
    case RecvAgain(t, size, _, _) => t in s.receivers.resumed && 0 < size
    case CopyOut(t) => Drains(s, t) && |s.pool.holds[t].out| < s.pool.holds[t].want
    case Return(t) => Drains(s, t) && |s.pool.holds[t].out| == s.pool.holds[t].want
    case Reset => true
    case ExpireSender(t) => t in s.senders.waiting
    case ExpireReceiver(t) => t in s.receivers.waiting
  }

  /** How an operation leaves its caller. */
  datatype Outcome = Returns(code: Err) | Suspended | Copying | Nobody

  function SendOrWait(s: State, t: Tid, message: seq<Byte>, timeout: int, prio: map<Tid, int>): (State, Outcome) {
    if s.pool.free != [] then (s.(pool := Alloc(s.pool, t, message, false)), Copying)
    else if timeout == 0 then (s, Returns(EFULL))
    else (s.(senders := s.senders.Suspend(t, s.flag, prio)), Suspended)
  }

  function RecvOrWait(s: State, t: Tid, size: nat, timeout: int, prio: map<Tid, int>): (State, Outcome) {
    if s.pool.queue != [] then
      (s.(pool := Unlink(s.pool, t, if size > s.pool.size then s.pool.size else size)), Copying)
    else if timeout == 0 then (s, Returns(ETIMEOUT))
    else (s.(receivers := s.receivers.Suspend(t, s.flag, prio)), Suspended)
  }

  function Emptied(s: State): State {
    s.(pool := Clear(s.pool), receivers := s.receivers.ResumeAll(), senders := s.senders.ResumeAll())
  }

  function Step(s: State, op: Op): (State, Outcome)
    requires Enabled(s, op)
  {
    match op
    case Send(t, message, timeout, prio) =>
      if |message| > s.pool.size then (s, Returns(ERROR)) else SendOrWait(s, t, message, timeout, prio)
    case SendAgain(t, message, timeout, prio) =>
      var s' := s.(senders := s.senders.Rerun(t));
      if s.senders.resumed[t] != EOK then (s', Returns(s.senders.resumed[t]))
      else SendOrWait(s', t, message, timeout, prio)
    case Urgent(t, message) =>
      if |message| > s.pool.size then (s, Returns(ERROR))
      else if s.pool.free == [] then (s, Returns(EFULL))
      else (s.(pool := Alloc(s.pool, t, message, true)), Copying)
    case CopyIn(t) => (s.(pool := PutByte(s.pool, t)), Copying)
    case Link(t) => (s.(pool := MessagePool.Link(s.pool, t), receivers := Woken(s.receivers)), Returns(EOK))
    case Recv(t, size, timeout, prio) => RecvOrWait(s, t, size, timeout, prio)
    case RecvAgain(t, size, timeout, prio) =>
      var s' := s.(receivers := s.receivers.Rerun(t));
      if s.receivers.resumed[t] != EOK then (s', Returns(s.receivers.resumed[t]))
      else RecvOrWait(s', t, size, timeout, prio)
    case CopyOut(t) => (s.(pool := GetByte(s.pool, t)), Copying)
    case Return(t) => (s.(pool := Release(s.pool, t), senders := Woken(s.senders)), Returns(EOK))
    case Reset => (Emptied(s), Returns(EOK))
    case ExpireSender(t) => (s.(senders := s.senders.Expire(t)), Nobody)
    case ExpireReceiver(t) => (s.(receivers := s.receivers.Expire(t)), Nobody)
  }

  lemma ResetEmpties(s: State)
    ensures Enabled(s, Reset) && Step(s, Reset) == (Emptied(s), Returns(EOK))
  {
  }

  // ------------------------------------------------------------------- whole runs

  /** A thread is in one place: idle, waiting to send, waiting to receive, or with a node in hand. */
  ghost predicate OnePlace(s: State) {
    && (forall t :: s.senders.Has(t) ==> !s.receivers.Has(t))
    && (forall t :: t in s.pool.holds ==> !s.senders.Has(t) && !s.receivers.Has(t))
  }

  ghost predicate Inv(s: State) {
    && Conserved(s.pool)
    && Intact(s.pool)
    && OnePlace(s)
    && NoLostWakeup(s.receivers, |s.pool.queue|)
    && NoLostWakeup(s.senders, |s.pool.free|)
  }

  /** The first region of a send, by a caller that counts among the resumed senders or not. */
  lemma SendOrWaitKeepsInv(s: State, t: Tid, message: seq<Byte>, timeout: int, prio: map<Tid, int>, credit: nat)
    requires credit <= 1 && Conserved(s.pool) && Intact(s.pool) && OnePlace(s) && Idle(s, t) && |message| <= s.pool.size
    requires NoLostWakeup(s.receivers, |s.pool.queue|) && NoLostWakeup(s.senders, |s.pool.free| - credit)
    ensures Inv(SendOrWait(s, t, message, timeout, prio).0)
  {
    if s.pool.free != [] {
      AllocKeeps(s.pool, t, message, false);
    } else {
      SuspendIsValid(s.senders, t, s.flag, prio);
    }
  }

  lemma RecvOrWaitKeepsInv(s: State, t: Tid, size: nat, timeout: int, prio: map<Tid, int>, credit: nat)
    requires credit <= 1 && Conserved(s.pool) && Intact(s.pool) && OnePlace(s) && Idle(s, t)
    requires NoLostWakeup(s.receivers, |s.pool.queue| - credit) && NoLostWakeup(s.senders, |s.pool.free|)
    ensures Inv(RecvOrWait(s, t, size, timeout, prio).0)
  {
    if s.pool.queue != [] {
      UnlinkKeeps(s.pool, t, if size > s.pool.size then s.pool.size else size);
    } else {
      SuspendIsValid(s.receivers, t, s.flag, prio);
    }
  }

  lemma AgainKeepsInv(s: State, op: Op)
    requires Inv(s) && Enabled(s, op) && (op.SendAgain? || op.RecvAgain?)
    ensures Inv(Step(s, op).0)
  {
    match op
    case SendAgain(t, message, timeout, prio) =>
      RerunKeepsUp(s.senders, |s.pool.free|, t);
      if s.senders.resumed[t] == EOK {
        SendOrWaitKeepsInv(s.(senders := s.senders.Rerun(t)), t, message, timeout, prio, 1);
      }
    case RecvAgain(t, size, timeout, prio) =>
      RerunKeepsUp(s.receivers, |s.pool.queue|, t);
      if s.receivers.resumed[t] == EOK {
        RecvOrWaitKeepsInv(s.(receivers := s.receivers.Rerun(t)), t, size, timeout, prio, 1);
      }
  }

  lemma CopyKeepsInv(s: State, op: Op)
    requires Inv(s) && Enabled(s, op) && (op.CopyIn? || op.CopyOut?)
    ensures Inv(Step(s, op).0)
  {
    match op
    case CopyIn(t) => PutByteKeeps(s.pool, t);
    case CopyOut(t) => GetByteKeeps(s.pool, t);
  }

  /** The queue is one longer, or the free list is, and the pool is still in order. */
  lemma LinkLengthens(p: Pool, t: Tid)
    requires Conserved(p) && Intact(p) && t in p.holds
    requires p.holds[t].Filling? && p.holds[t].done == |p.holds[t].message|
    ensures Conserved(MessagePool.Link(p, t)) && Intact(MessagePool.Link(p, t))
    ensures |MessagePool.Link(p, t).queue| == |p.queue| + 1 && MessagePool.Link(p, t).free == p.free
    ensures MessagePool.Link(p, t).holds == p.holds - {t}
  {
    LinkKeeps(p, t);
  }

  lemma ReleaseLengthens(p: Pool, t: Tid)
    requires Conserved(p) && Intact(p) && t in p.holds
    ensures Conserved(Release(p, t)) && Intact(Release(p, t))
    ensures |Release(p, t).free| == |p.free| + 1 && Release(p, t).queue == p.queue && Release(p, t).holds == p.holds - {t}
  {
    ReleaseKeeps(p, t);
  }

  /** What a thread that puts its node down leaves is in order. */
  lemma PutDownKeepsInv(s: State, p: Pool, receivers: Waits, senders: Waits, t: Tid)
    requires OnePlace(s) && Conserved(p) && Intact(p) && p.holds == s.pool.holds - {t}
    requires forall u :: (receivers.Has(u) <==> s.receivers.Has(u)) && (senders.Has(u) <==> s.senders.Has(u))
    requires NoLostWakeup(receivers, |p.queue|) && NoLostWakeup(senders, |p.free|)
    ensures Inv(State(p, s.flag, receivers, senders))
  {
  }

  lemma LinkKeepsInv(s: State, t: Tid)
    requires Inv(s) && Enabled(s, Link(t))
    ensures Inv(Step(s, Link(t)).0)
  {
    LinkLengthens(s.pool, t);
    WokenKeepsUp(s.receivers, |s.pool.queue|);
    PutDownKeepsInv(s, MessagePool.Link(s.pool, t), Woken(s.receivers), s.senders, t);
  }

  lemma ReturnKeepsInv(s: State, t: Tid)
    requires Inv(s) && Enabled(s, Return(t))
    ensures Inv(Step(s, Return(t)).0)
  {
    ReleaseLengthens(s.pool, t);
    WokenKeepsUp(s.senders, |s.pool.free|);
    PutDownKeepsInv(s, Release(s.pool, t), s.receivers, Woken(s.senders), t);
  }

  lemma WaitersKeepInv(s: State, op: Op)
    requires Inv(s) && Enabled(s, op) && (op.Reset? || op.ExpireSender? || op.ExpireReceiver?)
    ensures Inv(Step(s, op).0)
  {
    match op
    case Reset =>
      ClearKeeps(s.pool);
      ResumeAllIsValid(s.senders);
      ResumeAllIsValid(s.receivers);
    case ExpireSender(t) => ExpireIsValid(s.senders, t);
    case ExpireReceiver(t) => ExpireIsValid(s.receivers, t);
  }

  lemma StepKeepsInv(s: State, op: Op)
    requires Inv(s) && Enabled(s, op)
    ensures Inv(Step(s, op).0)
  {
    match op
    case Send(t, message, timeout, prio) =>
      if |message| <= s.pool.size {
        SendOrWaitKeepsInv(s, t, message, timeout, prio, 0);
      }
    case Urgent(t, message) =>
      if |message| <= s.pool.size && s.pool.free != [] {
        AllocKeeps(s.pool, t, message, true);
      }
    case Recv(t, size, timeout, prio) => RecvOrWaitKeepsInv(s, t, size, timeout, prio, 0);
    case Link(t) => LinkKeepsInv(s, t);
    case Return(t) => ReturnKeepsInv(s, t);
    case SendAgain(_, _, _, _) => AgainKeepsInv(s, op);
    case RecvAgain(_, _, _, _) => AgainKeepsInv(s, op);
    case CopyIn(_) => CopyKeepsInv(s, op);
    case CopyOut(_) => CopyKeepsInv(s, op);
    case Reset => WaitersKeepInv(s, op);
    case ExpireSender(_) => WaitersKeepInv(s, op);
    case ExpireReceiver(_) => WaitersKeepInv(s, op);
  }

  /** The state rt_mq_init leaves: every node is free, the last of the pool first. */
  ghost predicate Initial(s: State) {
    && s.receivers == NOBODY && s.senders == NOBODY
    && s.pool.queue == [] && s.pool.holds == map[]
    && s.pool.free == Descending(s.pool.max)
    && forall n: Node :: n < s.pool.max ==> n in s.pool.memory && |s.pool.memory[n]| == s.pool.size
  }

  function Descending(max: nat): (r: seq<Node>)
    ensures |r| == max && forall i :: 0 <= i < max ==> r[i] == max - 1 - i
  {
    seq(max, i requires 0 <= i < max => max - 1 - i)
  }

  lemma InitialIsInv(s: State)
    requires Initial(s)
    ensures Inv(s)
  {
    forall n: Node | n < s.pool.max ensures n in s.pool.free {
      assert s.pool.free[s.pool.max - 1 - n] == n;
    }
    assert NOBODY.Ready() == {};
  }

  ghost predicate Run(s: State, ops: seq<Op>, s': State)
    requires Inv(s)
    decreases |ops|
  {
    if ops == [] then s == s'
    else Enabled(s, ops[0]) && (StepKeepsInv(s, ops[0]); Run(Step(s, ops[0]).0, ops[1..], s'))
  }

  lemma {:induction false} RunKeepsInv(s: State, ops: seq<Op>, s': State)
    requires Inv(s) && Run(s, ops, s')
    ensures Inv(s')
    decreases |ops|
  {
    if ops != [] {
      StepKeepsInv(s, ops[0]);
      RunKeepsInv(Step(s, ops[0]).0, ops[1..], s');
    }
  }

  /** No lost wakeup in any reachable state. */
  lemma NoWakeupIsLost(s: State, ops: seq<Op>, s': State)
    requires Initial(s)
    requires (InitialIsInv(s); Run(s, ops, s'))
    ensures s'.receivers.waiting != [] ==> |s'.pool.queue| <= |s'.receivers.Ready()|
    ensures s'.senders.waiting != [] ==> |s'.pool.free| <= |s'.senders.Ready()|
  {
    InitialIsInv(s);
    RunKeepsInv(s, ops, s');
  }

  lemma {:induction false} RunKeepsMax(s: State, ops: seq<Op>, s': State)
    requires Inv(s) && Run(s, ops, s')
    ensures s'.pool.max == s.pool.max && s'.pool.size == s.pool.size
    decreases |ops|
  {
    if ops != [] {
      StepKeepsInv(s, ops[0]);
      RunKeepsMax(Step(s, ops[0]).0, ops[1..], s');
    }
  }

  /** Conservation: in any reachable state, each node of the pool is in exactly one of the free list,
      the message list, and the hands of one thread. */
  lemma NodesAreConserved(s: State, ops: seq<Op>, s': State, n: Node)
    requires Initial(s) && n < s.pool.max
    requires (InitialIsInv(s); Run(s, ops, s'))
    ensures ExactlyOne(n in s'.pool.free, n in s'.pool.queue, exists t :: t in s'.pool.holds && s'.pool.holds[t].node == n)
    ensures forall t, u :: t in s'.pool.holds && u in s'.pool.holds ==>
              s'.pool.holds[t].node == n == s'.pool.holds[u].node ==> t == u
    ensures Distinct(s'.pool.free) && Distinct(s'.pool.queue)
  {
    InitialIsInv(s);
    RunKeepsInv(s, ops, s');
    RunKeepsMax(s, ops, s');
    assert n in Hands(s'.pool.holds) <==> exists t :: t in s'.pool.holds && s'.pool.holds[t].node == n;
  }

  // ----------------------------------------------------------------- linearization

  /** The queue is a double-ended queue of messages.  Each call changes it in one step, which lies
      between its beginning and its end: linking appends or, if urgent, prepends; unlinking takes
      the first, which the receiver then copies out; a reset empties it; nothing else touches it. */
  ghost predicate Linear(before: seq<seq<Byte>>, s: State, op: Op, s': State, after: seq<seq<Byte>>) {
    match op
    case Link(t) =>
      t in s.pool.holds &&
      (var h := s.pool.holds[t];
       after == if h.Filling? && h.urgent then [h.message] + before else before + [h.message])
    case Reset => after == []
    case _ =>
      if (op.Recv? || op.RecvAgain?) && op.t in s'.pool.holds
      then before == [s'.pool.holds[op.t].message] + after
      else after == before
  }

  lemma UntouchedQueue(s: State, op: Op)
    requires Inv(s) && Enabled(s, op) && !op.Link? && !op.Reset?
    requires Step(s, op).0.pool.queue == s.pool.queue
    ensures Messages(Step(s, op).0.pool) == Messages(s.pool)
  {
    StepKeepsInv(s, op);
  }

  lemma StepIsLinear(s: State, op: Op)
    requires Inv(s) && Enabled(s, op)
    ensures Linear(Messages(s.pool), s, op, Step(s, op).0, Messages(Step(s, op).0.pool))
  {
    StepKeepsInv(s, op);
    match op
    case Link(t) => LinkEnqueues(s.pool, t);
    case Recv(t, size, _, _) =>
      if s.pool.queue != [] {
        UnlinkDequeues(s.pool, t, if size > s.pool.size then s.pool.size else size);
      }
    case RecvAgain(t, size, _, _) =>
      if s.pool.queue != [] && s.receivers.resumed[t] == EOK {
        UnlinkDequeues(s.pool, t, if size > s.pool.size then s.pool.size else size);
      }
    case Reset =>
    case _ => UntouchedQueue(s, op);
  }

  /** A receiver that is done returns the bytes that were sent, as far as both go, and as many bytes
      as it asked for or a node holds. */
  lemma BytesAreUnchanged(s: State, t: Tid)
    requires Intact(s.pool) && Drains(s, t) && |s.pool.holds[t].out| == s.pool.holds[t].want
    ensures Agree(s.pool.holds[t].out, s.pool.holds[t].message)
    ensures |s.pool.holds[t].out| == s.pool.holds[t].want <= s.pool.size
  {
    DrainedIsSent(s.pool, t);
  }

  /** A node in hand is nobody else's business. */
  lemma OthersKeepTheirNode(s: State, op: Op, t: Tid)
    requires Inv(s) && Enabled(s, op) && t in s.pool.holds && (op == Reset || op.t != t)
    ensures t in Step(s, op).0.pool.holds && Step(s, op).0.pool.holds[t] == s.pool.holds[t]
  {
    match op
    case CopyOut(u) =>
    case CopyIn(u) =>
    case Link(u) =>
    case Return(u) =>
    case _ =>
  }

  /** Between unlinking and returning, whatever other threads do, a receiver keeps its node and the
      message it stands for. */
  lemma DrainingIsPrivate(s: State, op: Op, t: Tid)
    requires Inv(s) && Enabled(s, op) && Drains(s, t) && op != Return(t)
    ensures Drains(Step(s, op).0, t)
    ensures
      var (h, h') := (s.pool.holds[t], Step(s, op).0.pool.holds[t]);
      h'.node == h.node && h'.message == h.message && h'.want == h.want && h.out <= h'.out
  {
    if op == Reset || op.t != t {
      OthersKeepTheirNode(s, op, t);
    }
  }

  lemma {:induction false} DrainingLasts(s: State, ops: seq<Op>, s': State, t: Tid)
    requires Inv(s) && Drains(s, t) && Run(s, ops, s') && Return(t) !in ops
    ensures Inv(s') && Drains(s', t)
    ensures s'.pool.holds[t].message == s.pool.holds[t].message && s'.pool.holds[t].want == s.pool.holds[t].want
    decreases |ops|
  {
    if ops != [] {
      StepKeepsInv(s, ops[0]);
      assert ops[0] in ops;
      DrainingIsPrivate(s, ops[0], t);
      DrainingLasts(Step(s, ops[0]).0, ops[1..], s', t);
    }
  }

  /** A whole receive: the caller that unlinks a node returns, whatever all others do in the meantime, with
      the bytes of the message that was first in the queue when it did so. */
  lemma ReceiverGetsTheFirst(s: State, op: Op, ops: seq<Op>, s': State)
    requires Inv(s) && Enabled(s, op) && (op.Recv? || op.RecvAgain?) && Step(s, op).1 == Copying
    requires (StepKeepsInv(s, op); Run(Step(s, op).0, ops, s'))
    requires Return(op.t) !in ops && Enabled(s', Return(op.t))
    ensures s.pool.queue != [] && Agree(s'.pool.holds[op.t].out, Messages(s.pool)[0])
    ensures |s'.pool.holds[op.t].out| == if op.size > s.pool.size then s.pool.size else op.size
  {
    StepKeepsInv(s, op);
    StepIsLinear(s, op);
    DrainingLasts(Step(s, op).0, ops, s', op.t);
    BytesAreUnchanged(s', op.t);
  }

  /** Between taking a node and linking it, whatever other threads do, a sender keeps its node and its message. */
  lemma FillingIsPrivate(s: State, op: Op, t: Tid)
    requires Inv(s) && Enabled(s, op) && Fills(s, t) && op != Link(t)
    ensures Fills(Step(s, op).0, t)
    ensures
      var (h, h') := (s.pool.holds[t], Step(s, op).0.pool.holds[t]);
      h'.node == h.node && h'.message == h.message && h'.urgent == h.urgent && h.done <= h'.done
  {
    if op == Reset || op.t != t {
      OthersKeepTheirNode(s, op, t);
    }
  }

  lemma {:induction false} FillingLasts(s: State, ops: seq<Op>, s': State, t: Tid)
    requires Inv(s) && Fills(s, t) && Run(s, ops, s') && Link(t) !in ops
    ensures Inv(s') && Fills(s', t)
    ensures s'.pool.holds[t].message == s.pool.holds[t].message && s'.pool.holds[t].urgent == s.pool.holds[t].urgent
    decreases |ops|
  {
    if ops != [] {
      StepKeepsInv(s, ops[0]);
      assert ops[0] in ops;
      FillingIsPrivate(s, ops[0], t);
      FillingLasts(Step(s, ops[0]).0, ops[1..], s', t);
    }
  }

  /** A whole send: what the caller that took a node links in the end, whatever all others do in the meantime, is
      the message it was called with, at the end of the queue or, if urgent, at its head. */
  lemma SenderLinksItsMessage(s: State, op: Op, ops: seq<Op>, s': State)
    requires Inv(s) && Enabled(s, op) && (op.Send? || op.SendAgain? || op.Urgent?) && Step(s, op).1 == Copying
    requires (StepKeepsInv(s, op); Run(Step(s, op).0, ops, s'))
    requires Link(op.t) !in ops && Enabled(s', Link(op.t))
    ensures
      var before, after := Messages(s'.pool), Messages(Step(s', Link(op.t)).0.pool);
      after == if op.Urgent? then [op.message] + before else before + [op.message]
  {
    StepKeepsInv(s, op);
    FillingLasts(Step(s, op).0, ops, s', op.t);
    StepIsLinear(s', Link(op.t));
  }
}
