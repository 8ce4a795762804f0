/** What the callers of the message queue are told (rt-thread/src/ipc.c, rt_mq_send_wait, rt_mq_urgent and rt_mq_recv),
    said in terms of the messages, the nodes and the waiting threads. */
module MessageQueueCalls {
  import opened Options
  import opened WaitQueue
  import opened MessagePool
  import opened MessageQueue

  predicate Sends(op: Op) {
    op.Send? || op.SendAgain? || op.Urgent?
  }

  predicate Receives(op: Op) {
    op.Recv? || op.RecvAgain?
  }

  /** The waker's error, which ends a call when its caller runs again */
  function Failure(s: State, op: Op): Option<Err> {
    match op
    case SendAgain(t, _, _, _) =>
      if t in s.senders.resumed && s.senders.resumed[t] != EOK then Some(s.senders.resumed[t]) else None
    case RecvAgain(t, _, _, _) =>
      if t in s.receivers.resumed && s.receivers.resumed[t] != EOK then Some(s.receivers.resumed[t]) else None
    case _ => None
  }

  /** May the call wait?  An urgent send never does. */
  predicate HasTime(op: Op) {
    match op
    case Send(_, _, timeout, _) => timeout != 0
    case SendAgain(_, _, timeout, _) => timeout != 0
    case Recv(_, _, timeout, _) => timeout != 0
    case RecvAgain(_, _, timeout, _) => timeout != 0
    case _ => false
  }

  predicate Fits(s: State, op: Op)
    requires Sends(op)
  {
    |op.message| <= s.pool.size
  }

  /** In every reachable state, the first step of a send, or the one after a wait, leaves the messages alone and does
      not return EOK.  It takes a node, to be filled with its message, exactly if there is one; it waits exactly if
      there is none and it has time; and it returns EFULL exactly if there is none and it has no time, ERROR for a
      message that does not fit a node, and the error of its waker if there is one.  When it returns, all nodes are
      where they were. */
  lemma SenderIsTold(s: State, op: Op)
    requires Inv(s) && Enabled(s, op) && Sends(op)
    ensures
      var (s', r) := Step(s, op);
      var tries := Failure(s, op) == None && Fits(s, op);
      && Messages(s'.pool) == Messages(s.pool)
      && r != Returns(EOK)
      && (r == Copying <==> tries && s.pool.free != [])
      && (r == Copying <==> Fills(s', op.t))
      && (r == Copying ==> s'.pool.holds[op.t].message == op.message && s'.pool.holds[op.t].urgent == op.Urgent?)
      && (r == Suspended <==> tries && s.pool.free == [] && HasTime(op))
      && (r == Suspended <==> op.t in s'.senders.waiting)
      && (r.Returns? <==> Idle(s', op.t))
      && (r != Copying ==> s'.pool == s.pool)
      && (r == Returns(EFULL) <==> tries && s.pool.free == [] && !HasTime(op))
      && (!Fits(s, op) ==> r == Returns(ERROR))
      && (Failure(s, op) != None ==> r == Returns(Failure(s, op).value))
  {
    StepIsLinear(s, op);
    if op.Send? {
      SuspendMoves(s.senders, op.t, s.flag, op.prio, op.t);
    } else if op.SendAgain? {
      RerunIsValid(s.senders, op.t);
      SuspendMoves(s.senders.Rerun(op.t), op.t, s.flag, op.prio, op.t);
    }
  }

  /** EOK is the answer of the last step of a send alone, and that step adds its message, at the end or, if urgent, at
      the head; the caller is then done, and its node is in the queue. */
  lemma SenderIsToldOfItsMessage(s: State, t: Tid)
    requires Inv(s) && Enabled(s, Link(t))
    ensures
      var (s', r, h) := (Step(s, Link(t)).0, Step(s, Link(t)).1, s.pool.holds[t]);
      && r == Returns(EOK) && Idle(s', t) && s'.pool.free == s.pool.free
      && Messages(s'.pool) == if h.urgent then [h.message] + Messages(s.pool) else Messages(s.pool) + [h.message]
  {
    StepIsLinear(s, Link(t));
    WokenMoves(s.receivers, t);
  }

  /** The same for receivers: the first step, or the one after a wait, never returns EOK.  It takes the first message
      exactly if there is one; it waits exactly if there is none and it has time; it returns ETIMEOUT, unless that is
      the error of its waker, exactly if there is none and it has no time. */
  lemma ReceiverIsTold(s: State, op: Op)
    requires Inv(s) && Enabled(s, op) && Receives(op)
    ensures
      var (s', r) := Step(s, op);
      var tries := Failure(s, op) == None;
      && r != Returns(EOK)
      && (r == Copying <==> tries && Messages(s.pool) != [])
      && (r == Copying <==> Drains(s', op.t))
      && (r == Copying ==> Messages(s.pool) == [s'.pool.holds[op.t].message] + Messages(s'.pool))
      && (r == Copying ==> s'.pool.holds[op.t].out == [])
      && (r == Suspended <==> tries && Messages(s.pool) == [] && HasTime(op))
      && (r == Suspended <==> op.t in s'.receivers.waiting)
      && (r.Returns? <==> Idle(s', op.t))
      && (r != Copying ==> s'.pool == s.pool)
      && (tries && r == Returns(ETIMEOUT) <==> tries && Messages(s.pool) == [] && !HasTime(op))
      && (tries && r.Returns? ==> r == Returns(ETIMEOUT))
      && (!tries ==> r == Returns(Failure(s, op).value))
  {
    StepIsLinear(s, op);
    if op.Recv? {
      SuspendMoves(s.receivers, op.t, s.flag, op.prio, op.t);
    } else {
      RerunIsValid(s.receivers, op.t);
      SuspendMoves(s.receivers.Rerun(op.t), op.t, s.flag, op.prio, op.t);
    }
  }

  /** EOK is the answer of the last step of a receive alone, which frees the node and leaves the messages alone. */
  lemma ReceiverIsToldWhenItIsDone(s: State, t: Tid)
    requires Inv(s) && Enabled(s, Return(t))
    ensures
      var (s', r) := Step(s, Return(t));
      && r == Returns(EOK) && Idle(s', t) && Messages(s'.pool) == Messages(s.pool)
      && s.pool.holds[t].node in s'.pool.free && s.pool.holds[t].node !in s.pool.free
  {
    StepIsLinear(s, Return(t));
    HeldNodesAreInHands(s.pool, t);
    WokenMoves(s.senders, t);
  }

  /** No other step of a send or a receive ends it with EOK. */
  lemma NothingElseReturnsEok(s: State, op: Op)
    requires Inv(s) && Enabled(s, op) && Step(s, op).1 == Returns(EOK)
    ensures op.Link? || op.Return? || op == Reset
  {
    if Sends(op) {
      SenderIsTold(s, op);
    } else if Receives(op) {
      ReceiverIsTold(s, op);
    }
  }

  /** Where a step leaves a thread among the receivers and among the senders: a message that is linked resumes the
      first receiver with EOK, a node that is freed the first sender, a reset everybody with an error, and a timeout its
      own thread; a caller waits or is gone, as it is told. */
  ghost predicate Placed(s: State, op: Op, u: Tid)
    requires Enabled(s, op)
  {
    var (s', r) := Step(s, op);
    && Where(s'.receivers, u) ==
        (if Receives(op) && u == op.t then if r == Suspended then Waiting else Away
         else if op.Link? && s.receivers.waiting != [] && u == s.receivers.waiting[0] then Resumed(EOK)
         else if op == Reset && u in s.receivers.waiting then Resumed(ERROR)
         else if op == ExpireReceiver(u) then Resumed(ETIMEOUT)
         else Where(s.receivers, u))
    && Where(s'.senders, u) ==
        (if Sends(op) && u == op.t then if r == Suspended then Waiting else Away
         else if op.Return? && s.senders.waiting != [] && u == s.senders.waiting[0] then Resumed(EOK)
         else if op == Reset && u in s.senders.waiting then Resumed(ERROR)
         else if op == ExpireSender(u) then Resumed(ETIMEOUT)
         else Where(s.senders, u))
  }

  lemma SendPlaces(s: State, op: Op, u: Tid)
    requires Inv(s) && Enabled(s, op) && Sends(op)
    ensures Placed(s, op, u)
  {
    if op.Send? {
      SuspendMoves(s.senders, op.t, s.flag, op.prio, u);
    } else if op.SendAgain? {
      RerunIsValid(s.senders, op.t);
      RerunMoves(s.senders, op.t, u);
      SuspendMoves(s.senders.Rerun(op.t), op.t, s.flag, op.prio, u);
    }
  }

  lemma RecvPlaces(s: State, op: Op, u: Tid)
    requires Inv(s) && Enabled(s, op) && Receives(op)
    ensures Placed(s, op, u)
  {
    if op.Recv? {
      SuspendMoves(s.receivers, op.t, s.flag, op.prio, u);
    } else {
      RerunIsValid(s.receivers, op.t);
      RerunMoves(s.receivers, op.t, u);
      SuspendMoves(s.receivers.Rerun(op.t), op.t, s.flag, op.prio, u);
    }
  }

  lemma WaiterIsTold(s: State, op: Op, u: Tid)
    requires Inv(s) && Enabled(s, op)
    ensures Placed(s, op, u)
    ensures op == Reset ==> Messages(Step(s, op).0.pool) == []
  {
    match op
    case Link(_) => WokenMoves(s.receivers, u);
    case Return(_) => WokenMoves(s.senders, u);
    case Reset =>
      ResumeAllMoves(s.receivers, u);
      ResumeAllMoves(s.senders, u);
    case ExpireSender(t) => ExpireMoves(s.senders, t, u);
    case ExpireReceiver(t) => ExpireMoves(s.receivers, t, u);
    case _ =>
      if Sends(op) {
        SendPlaces(s, op, u);
      } else if Receives(op) {
        RecvPlaces(s, op, u);
      }
  }
}
