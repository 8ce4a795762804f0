/** The mailbox: a bounded queue of words with blocking senders and receivers
    (rt-thread/src/ipc.c, rt_mb_init to rt_mb_control). */
module Mailbox {
  import opened Options
  import opened WaitQueue

  const ENTRY_MAX: nat := 65535

  /** The mailbox as its users see it.  mail is what each blocked sender has to send; sent and
      received are the words sent and received since the last reset. */
  datatype State = State(size: nat, flag: Flag, fifo: seq<int>, receivers: Waits, senders: Waits,
                         mail: map<Tid, int>, sent: seq<int>, received: seq<int>)

  /** Each operation is one region that runs with interrupts disabled: a call up to its end or to
      rt_schedule (Send, Recv), or from the return of rt_schedule to the next such point (Again). */
  datatype Op =
    | Send(t: Tid, value: int, timeout: int, prio: map<Tid, int>)
    | SendAgain(t: Tid, timeout: int, prio: map<Tid, int>)
    | Recv(t: Tid, timeout: int, prio: map<Tid, int>)
    | RecvAgain(t: Tid, timeout: int, prio: map<Tid, int>)
    | Reset
    | ExpireSender(t: Tid)
    | ExpireReceiver(t: Tid)

  ghost predicate Enabled(s: State, op: Op) {
    match op
    case Send(t, _, _, _) => !s.senders.Has(t) && !s.receivers.Has(t)
    case Recv(t, _, _) => !s.senders.Has(t) && !s.receivers.Has(t)
    case SendAgain(t, _, _) => t in s.senders.resumed && t in s.mail
    case RecvAgain(t, _, _) => t in s.receivers.resumed
    case Reset => true
    case ExpireSender(t) => t in s.senders.waiting
    case ExpireReceiver(t) => t in s.receivers.waiting
  }

  function SendOrWait(s: State, t: Tid, value: int, timeout: int, prio: map<Tid, int>): (State, Option<Err>) {
    if |s.fifo| < s.size then
      (s.(fifo := s.fifo + [value], receivers := Woken(s.receivers), sent := s.sent + [value]), Some(EOK))
    else if timeout == 0 then (s, Some(EFULL))
    else (s.(senders := s.senders.Suspend(t, s.flag, prio), mail := s.mail[t := value]), None)
  }

  function RecvOrWait(s: State, t: Tid, timeout: int, prio: map<Tid, int>): (State, Option<Err>) {
    if s.fifo != [] then
      (s.(fifo := s.fifo[1..], senders := Woken(s.senders), received := s.received + [s.fifo[0]]), Some(EOK))
    else if timeout == 0 then (s, Some(ETIMEOUT))
    else (s.(receivers := s.receivers.Suspend(t, s.flag, prio)), None)
  }

  /** The new state, and the code returned to the caller; None if it is now suspended. */
  function Step(s: State, op: Op): (State, Option<Err>) {
    match op
    case Send(t, value, timeout, prio) => SendOrWait(s, t, value, timeout, prio)
    case SendAgain(t, timeout, prio) =>
      var s' := s.(senders := s.senders.Rerun(t));
      if t !in s.senders.resumed || t !in s.mail then (s', None)
      else if s.senders.resumed[t] != EOK then (s', Some(s.senders.resumed[t]))
      else SendOrWait(s', t, s.mail[t], timeout, prio)
    case Recv(t, timeout, prio) => RecvOrWait(s, t, timeout, prio)
    case RecvAgain(t, timeout, prio) =>
      var s' := s.(receivers := s.receivers.Rerun(t));
      if t !in s.receivers.resumed then (s', None)
      else if s.receivers.resumed[t] != EOK then (s', Some(s.receivers.resumed[t]))
      else RecvOrWait(s', t, timeout, prio)
    case Reset =>
      (s.(fifo := [], receivers := s.receivers.ResumeAll(), senders := s.senders.ResumeAll(), sent := [], received := []),
       Some(EOK))
    case ExpireSender(t) => (s.(senders := s.senders.Expire(t)), None)
    case ExpireReceiver(t) => (s.(receivers := s.receivers.Expire(t)), None)
  }

  // ------------------------------------------------------------------- whole runs

  ghost predicate Inv(s: State) {
    && |s.fifo| <= s.size
    && NoLostWakeup(s.receivers, |s.fifo|)
    && NoLostWakeup(s.senders, s.size - |s.fifo|)
    && (forall t :: s.senders.Has(t) ==> t in s.mail && !s.receivers.Has(t))
    && s.sent == s.received + s.fifo
  }

  /** SendOrWait, for a caller counted among the resumed senders or not. */
  lemma SendOrWaitKeepsInv(s: State, t: Tid, value: int, timeout: int, prio: map<Tid, int>, credit: nat)
    requires credit <= 1 && |s.fifo| <= s.size && s.sent == s.received + s.fifo
    requires NoLostWakeup(s.receivers, |s.fifo|) && NoLostWakeup(s.senders, s.size - |s.fifo| - credit)
    requires forall u :: s.senders.Has(u) ==> u in s.mail && !s.receivers.Has(u)
    requires !s.senders.Has(t) && !s.receivers.Has(t)
    ensures Inv(SendOrWait(s, t, value, timeout, prio).0)
  {
    WokenKeepsUp(s.receivers, |s.fifo|);
    SuspendIsValid(s.senders, t, s.flag, prio);
    assert (s.received + s.fifo) + [value] == s.received + (s.fifo + [value]);
  }

  lemma RecvOrWaitKeepsInv(s: State, t: Tid, timeout: int, prio: map<Tid, int>, credit: nat)
    requires credit <= 1 && |s.fifo| <= s.size && s.sent == s.received + s.fifo
    requires NoLostWakeup(s.receivers, |s.fifo| - credit) && NoLostWakeup(s.senders, s.size - |s.fifo|)
    requires forall u :: s.senders.Has(u) ==> u in s.mail && !s.receivers.Has(u)
    requires !s.senders.Has(t) && !s.receivers.Has(t)
    ensures Inv(RecvOrWait(s, t, timeout, prio).0)
  {
    WokenKeepsUp(s.senders, s.size - |s.fifo|);
    SuspendIsValid(s.receivers, t, s.flag, prio);
    if s.fifo != [] {
      assert s.received + s.fifo == (s.received + [s.fifo[0]]) + s.fifo[1..];
    }
  }

  lemma StepKeepsInv(s: State, op: Op)
    requires Inv(s) && Enabled(s, op)
    ensures Inv(Step(s, op).0)
  {
    match op
    case Send(t, value, timeout, prio) => SendOrWaitKeepsInv(s, t, value, timeout, prio, 0);
    case Recv(t, timeout, prio) => RecvOrWaitKeepsInv(s, t, timeout, prio, 0);
    case SendAgain(t, timeout, prio) =>
      RerunKeepsUp(s.senders, s.size - |s.fifo|, t);
      if s.senders.resumed[t] == EOK {
        SendOrWaitKeepsInv(s.(senders := s.senders.Rerun(t)), t, s.mail[t], timeout, prio, 1);
      }
    case RecvAgain(t, timeout, prio) =>
      RerunKeepsUp(s.receivers, |s.fifo|, t);
      if s.receivers.resumed[t] == EOK {
        RecvOrWaitKeepsInv(s.(receivers := s.receivers.Rerun(t)), t, timeout, prio, 1);
      }
    case Reset =>
      ResumeAllIsValid(s.senders);
      ResumeAllIsValid(s.receivers);
    case ExpireSender(t) => ExpireIsValid(s.senders, t);
    case ExpireReceiver(t) => ExpireIsValid(s.receivers, t);
  }

  function Initial(size: nat, flag: Flag): State {
    State(size, flag, [], NOBODY, NOBODY, map[], [], [])
  }

  ghost predicate Run(s: State, ops: seq<Op>, s': State)
    decreases |ops|
  {
    if ops == [] then s == s'
    else Enabled(s, ops[0]) && Run(Step(s, ops[0]).0, ops[1..], s')
  }

  lemma {:induction false} RunKeepsInv(s: State, ops: seq<Op>, s': State)
    requires Inv(s) && Run(s, ops, s')
    ensures Inv(s')
    decreases |ops|
  {
    if ops != [] {
      StepKeepsInv(s, ops[0]);
      RunKeepsInv(Step(s, ops[0]).0, ops[1..], s');
    }
  }

  /** No lost wakeup, and no lost, doubled or reordered mail, in every reachable state: whoever
      steals, times out or resets. */
  lemma NoWakeupIsLost(size: nat, flag: Flag, ops: seq<Op>, s: State)
    requires Run(Initial(size, flag), ops, s)
    ensures s.receivers.waiting != [] ==> |s.fifo| <= |s.receivers.Ready()|
    ensures s.senders.waiting != [] ==> s.size - |s.fifo| <= |s.senders.Ready()|
    ensures s.sent == s.received + s.fifo && |s.fifo| <= s.size
  {
    assert NOBODY.Ready() == {};
    RunKeepsInv(Initial(size, flag), ops, s);
  }

  // ------------------------------------------------------ what callers are told

  predicate Sends(op: Op) {
    op.Send? || op.SendAgain?
  }

  predicate Receives(op: Op) {
    op.Recv? || op.RecvAgain?
  }

  /** The waker's error, which ends a call when its caller runs again */
  function Failure(s: State, op: Op): Option<Err> {
    match op
    case SendAgain(t, _, _) =>
      if t in s.senders.resumed && s.senders.resumed[t] != EOK then Some(s.senders.resumed[t]) else None
    case RecvAgain(t, _, _) =>
      if t in s.receivers.resumed && s.receivers.resumed[t] != EOK then Some(s.receivers.resumed[t]) else None
    case _ => None
  }

  /** The word of a send: its argument, also after a wait */
  function Word(s: State, op: Op): int {
    if op.Send? then op.value else if op.SendAgain? && op.t in s.mail then s.mail[op.t] else 0
  }

  /** In every reachable state: a sender is told EOK exactly if its word went in behind all others, EFULL exactly if the
      mailbox is full and it has no time, the error of its waker if there is one; it waits exactly if the mailbox is
      full and it has time, and its word is kept for it; and what is not sent changes nothing in the mailbox. */
  lemma SenderIsTold(s: State, op: Op)
    requires Inv(s) && Enabled(s, op) && Sends(op)
    ensures
      var (s', r) := Step(s, op);
      && (r == Some(EOK) <==> s'.fifo == s.fifo + [Word(s, op)])
      && (r == Some(EOK) <==> Failure(s, op) == None && |s.fifo| < s.size)
      && (r != Some(EOK) ==> s'.fifo == s.fifo && s'.receivers == s.receivers)
      && (r == Some(EFULL) <==> Failure(s, op) == None && |s.fifo| == s.size && op.timeout == 0)
      && (r == None <==> Failure(s, op) == None && |s.fifo| == s.size && op.timeout != 0)
      && (r == None <==> op.t in s'.senders.waiting)
      && (r == None ==> op.t in s'.mail && s'.mail[op.t] == Word(s, op))
      && (r != None ==> !s'.senders.Has(op.t) && !s'.receivers.Has(op.t))
      && (Failure(s, op) != None ==> r == Failure(s, op))
  {
    var w := if op.Send? then s.senders else s.senders.Rerun(op.t);
    if op.SendAgain? {
      RerunIsValid(s.senders, op.t);
    }
    SuspendIsValid(w, op.t, s.flag, op.prio);
    SuspendMoves(w, op.t, s.flag, op.prio, op.t);
    WokenMoves(s.receivers, op.t);
  }

  /** And a receiver: EOK exactly if the first word went out, ETIMEOUT at once exactly if there is none and it has no
      time, and it waits exactly if there is none and it has. */
  lemma ReceiverIsTold(s: State, op: Op)
    requires Inv(s) && Enabled(s, op) && Receives(op)
    ensures
      var (s', r) := Step(s, op);
      && (r == Some(EOK) <==> s.fifo != [] && s.fifo == [s.fifo[0]] + s'.fifo)
      && (r == Some(EOK) <==> Failure(s, op) == None && s.fifo != [])
      && (r != Some(EOK) ==> s'.fifo == s.fifo && s'.senders == s.senders)
      && (r == Some(ETIMEOUT) && Failure(s, op) == None <==> Failure(s, op) == None && s.fifo == [] && op.timeout == 0)
      && (r == None <==> Failure(s, op) == None && s.fifo == [] && op.timeout != 0)
      && (r == None <==> op.t in s'.receivers.waiting)
      && (r != None ==> !s'.receivers.Has(op.t) && !s'.senders.Has(op.t))
      && (Failure(s, op) != None ==> r == Failure(s, op))
  {
    var w := if op.Recv? then s.receivers else s.receivers.Rerun(op.t);
    if op.RecvAgain? {
      RerunIsValid(s.receivers, op.t);
    }
    SuspendIsValid(w, op.t, s.flag, op.prio);
    SuspendMoves(w, op.t, s.flag, op.prio, op.t);
    assert !s.senders.Has(op.t);
    WokenMoves(s.senders, op.t);
  }

  /** Where a step leaves a thread among the receivers and among the senders: a word that goes in resumes the first
      receiver with EOK, one that goes out the first sender, a reset everybody with an error, and a timeout its own
      thread; a caller waits or is gone, as it is told. */
  ghost predicate Placed(s: State, op: Op, u: Tid) {
    var (s', r) := Step(s, op);
    && Where(s'.receivers, u) ==
        (if Receives(op) && u == op.t then if r == None then Waiting else Away
         else if Sends(op) && r == Some(EOK) && s.receivers.waiting != [] && u == s.receivers.waiting[0] then Resumed(EOK)
         else if op == Reset && u in s.receivers.waiting then Resumed(ERROR)
         else if op == ExpireReceiver(u) then Resumed(ETIMEOUT)
         else Where(s.receivers, u))
    && Where(s'.senders, u) ==
        (if Sends(op) && u == op.t then if r == None then Waiting else Away
         else if Receives(op) && r == Some(EOK) && s.senders.waiting != [] && u == s.senders.waiting[0] then Resumed(EOK)
         else if op == Reset && u in s.senders.waiting then Resumed(ERROR)
         else if op == ExpireSender(u) then Resumed(ETIMEOUT)
         else Where(s.senders, u))
  }

  lemma SendPlaces(s: State, op: Op, u: Tid)
    requires Inv(s) && Enabled(s, op) && Sends(op)
    ensures Placed(s, op, u)
  {
    WokenMoves(s.receivers, u);
    if op.Send? {
      SuspendMoves(s.senders, op.t, s.flag, op.prio, u);
    } else {
      RerunIsValid(s.senders, op.t);
      RerunMoves(s.senders, op.t, u);
      SuspendMoves(s.senders.Rerun(op.t), op.t, s.flag, op.prio, u);
    }
  }

  lemma RecvPlaces(s: State, op: Op, u: Tid)
    requires Inv(s) && Enabled(s, op) && Receives(op)
    ensures Placed(s, op, u)
  {
    WokenMoves(s.senders, u);
    if op.Recv? {
      SuspendMoves(s.receivers, op.t, s.flag, op.prio, u);
    } else {
      RerunIsValid(s.receivers, op.t);
      RerunMoves(s.receivers, op.t, u);
      SuspendMoves(s.receivers.Rerun(op.t), op.t, s.flag, op.prio, u);
    }
  }

  lemma WaiterIsTold(s: State, op: Op, u: Tid)
    requires Inv(s) && Enabled(s, op)
    ensures Placed(s, op, u)
    ensures op == Reset ==> Step(s, op).0.fifo == [] && Step(s, op).1 == Some(EOK)
  {
    match op
    case Reset =>
      ResumeAllMoves(s.receivers, u);
      ResumeAllMoves(s.senders, u);
    case ExpireSender(t) => ExpireMoves(s.senders, t, u);
    case ExpireReceiver(t) => ExpireMoves(s.receivers, t, u);
    case _ =>
      if Sends(op) {
        SendPlaces(s, op, u);
      } else {
        RecvPlaces(s, op, u);
      }
  }

  // -------------------------------------------------------------- the operations

  /** The entry words of the ring that starts at out. */
  function Ring(pool: seq<int>, out: nat, entry: nat): (r: seq<int>)
    requires entry <= |pool| && (out < |pool| || (out == 0 && pool == []))
    ensures |r| == entry
  {
    if out + entry <= |pool| then pool[out..out + entry] else pool[out..] + pool[..out + entry - |pool|]
  }

  /** The next free slot of the ring. */
  function After(pool: seq<int>, out: nat, entry: nat): nat {
    if out + entry < |pool| then out + entry else out + entry - |pool|
  }

  lemma AfterIsModulo(pool: seq<int>, out: nat, entry: nat)
    requires entry <= |pool| && out < |pool|
    ensures After(pool, out, entry) == (out + entry) % |pool|
  {
    var n := |pool|;
    if out + entry >= n {
      assert out + entry == n + (out + entry - n);
      assert (out + entry) / n == 1;
    }
  }

  lemma RingPush(pool: seq<int>, out: nat, entry: nat, value: int)
    requires entry < |pool| && out < |pool|
    ensures
      var slot := After(pool, out, entry);
      && 0 <= slot < |pool|
      && Ring(pool[slot := value], out, entry + 1) == Ring(pool, out, entry) + [value]
      && After(pool, out, entry + 1) == if slot + 1 >= |pool| then 0 else slot + 1
  {
  }

  lemma RingPop(pool: seq<int>, out: nat, entry: nat)
    requires 0 < entry <= |pool| && out < |pool|
    ensures
      var out' := if out + 1 >= |pool| then 0 else out + 1;
      && Ring(pool, out, entry) == [pool[out]] + Ring(pool, out', entry - 1)
      && After(pool, out', entry - 1) == After(pool, out, entry)
  {
    var n := |pool|;
    if out + 1 == n {
      assert pool[out..] == [pool[out]];
      if out + entry > n {
        assert pool[..out + entry - n] == pool[0..0 + (entry - 1)];
      }
    } else if out + entry <= n {
      assert pool[out..out + entry] == [pool[out]] + pool[out + 1..out + entry];
    } else {
      assert pool[out..] == [pool[out]] + pool[out + 1..];
      assert out + 1 + (entry - 1) == out + entry;
    }
  }

  class RtMailbox {
    const size: nat
    const flag: Flag
    const msgPool: array<int>
    var entry: nat
    var inOffset: nat
    var outOffset: nat
    var receivers: Waits
    var senders: Waits
    ghost var mail: map<Tid, int>
    ghost var sent: seq<int>
    ghost var received: seq<int>

    ghost predicate Valid()
      reads this, msgPool
    {
      && size <= ENTRY_MAX && size <= msgPool.Length
      && entry <= size
      && (outOffset < size || (outOffset == 0 && size == 0))
      && inOffset == After(msgPool[..size], outOffset, entry)
    }

    ghost function Abs(): State
      reads this, msgPool
      requires Valid()
    {
      State(size, flag, Ring(msgPool[..size], outOffset, entry), receivers, senders, mail, sent, received)
    }

    /** rt_mb_init over a pool of at least size words; the size is kept in 16 bits. */
    constructor (msgPool: array<int>, size: nat, flag: Flag)
      requires size <= msgPool.Length
      ensures Valid() && this.msgPool == msgPool && Abs() == Initial(size % 0x1_0000, flag)
    {
      this.size, this.flag, this.msgPool := size % 0x1_0000, flag, msgPool;
      entry, inOffset, outOffset, receivers, senders := 0, 0, 0, NOBODY, NOBODY;
      mail, sent, received := map[], [], [];
    }

    /** The offsets always agree with the count, modulo the size. */
    lemma OffsetsAgree()
      requires Valid() && size > 0
      ensures inOffset == (outOffset + entry) % size
    {
      AfterIsModulo(msgPool[..size], outOffset, entry);
    }

    /** The middle of rt_mb_send_wait: a word goes into the ring.  The overflow exit is never taken. */
    method Put(value: int)
      requires Valid() && entry != size
      modifies this`inOffset, this`entry, this`sent, msgPool
      ensures Valid()
      ensures Abs() == old(Abs()).(fifo := old(Abs()).fifo + [value], sent := old(sent) + [value])
    {
      RingPush(msgPool[..size], outOffset, entry, value);
      msgPool[inOffset] := value;
      assert msgPool[..size] == old(msgPool[..size])[inOffset := value];
      inOffset := inOffset + 1;
      if inOffset >= size {
        inOffset := 0;
      }
      if entry < ENTRY_MAX {
        entry := entry + 1;
      } else {
        assert false;
      }
      sent := sent + [value];
    }

    /** The middle of rt_mb_recv: the oldest word leaves the ring. */
    method Get() returns (value: int)
      requires Valid() && entry != 0
      modifies this`outOffset, this`entry, this`received
      ensures Valid() && old(Abs()).fifo != [] && value == old(Abs()).fifo[0]
      ensures Abs() == old(Abs()).(fifo := old(Abs()).fifo[1..], received := old(received) + [value])
    {
      RingPop(msgPool[..size], outOffset, entry);
      value := msgPool[outOffset];
      outOffset := outOffset + 1;
      if outOffset >= size {
        outOffset := 0;
      }
      if entry > 0 {
        entry := entry - 1;
      }
      received := received + [value];
    }

    /** rt_mb_send_wait from the test of the loop on */
    method TrySend(t: Tid, value: int, timeout: int, prio: map<Tid, int>) returns (ret: Option<Err>)
      requires Valid()
      modifies this, msgPool
      ensures Valid() && (Abs(), ret) == SendOrWait(old(Abs()), t, value, timeout, prio)
    {
      if entry == size {
        if timeout == 0 {
          return Some(EFULL);
        }
        senders := senders.Suspend(t, flag, prio);
        mail := mail[t := value];
        return None;
      }
      Put(value);
      if receivers.waiting != [] {
        receivers := receivers.ResumeFirst();
      }
      return Some(EOK);
    }

    /** rt_mb_recv from the test of the loop on */
    method TryRecv(t: Tid, timeout: int, prio: map<Tid, int>) returns (ret: Option<Err>, value: int)
      requires Valid()
      modifies this
      ensures Valid() && (Abs(), ret) == RecvOrWait(old(Abs()), t, timeout, prio)
      ensures ret == Some(EOK) ==> old(Abs()).fifo != [] && value == old(Abs()).fifo[0]
    {
      if entry == 0 {
        if timeout == 0 {
          return Some(ETIMEOUT), 0;
        }
        receivers := receivers.Suspend(t, flag, prio);
        return None, 0;
      }
      value := Get();
      if senders.waiting != [] {
        senders := senders.ResumeFirst();
      }
      return Some(EOK), value;
    }

    /** The rest of rt_mb_send_wait after rt_schedule; timeout is what is left of the waiting time. */
    method SendAgain(t: Tid, timeout: int, prio: map<Tid, int>, value: int) returns (ret: Option<Err>)
      requires Valid() && Enabled(Abs(), Op.SendAgain(t, timeout, prio)) && value == mail[t]
      modifies this, msgPool
      ensures Valid() && (Abs(), ret) == Step(old(Abs()), Op.SendAgain(t, timeout, prio))
    {
      var error := senders.resumed[t];
      senders := senders.Rerun(t);
      if error != EOK {
        return Some(error);
      }
      ret := TrySend(t, value, timeout, prio);
    }

    /** The rest of rt_mb_recv after rt_schedule */
    method RecvAgain(t: Tid, timeout: int, prio: map<Tid, int>) returns (ret: Option<Err>, value: int)
      requires Valid() && Enabled(Abs(), Op.RecvAgain(t, timeout, prio))
      modifies this
      ensures Valid() && (Abs(), ret) == Step(old(Abs()), Op.RecvAgain(t, timeout, prio))
      ensures ret == Some(EOK) ==> old(Abs()).fifo != [] && value == old(Abs()).fifo[0]
    {
      var error := receivers.resumed[t];
      receivers := receivers.Rerun(t);
      if error != EOK {
        return Some(error), 0;
      }
      ret, value := TryRecv(t, timeout, prio);
    }

    /** rt_mb_control with RT_IPC_CMD_RESET */
    method Reset()
      requires Valid()
      modifies this
      ensures Valid() && Abs() == Step(old(Abs()), Op.Reset).0
    {
      receivers := receivers.ResumeAll();
      senders := senders.ResumeAll();
      entry, inOffset, outOffset := 0, 0, 0;
      sent, received := [], [];
    }
  }
}
