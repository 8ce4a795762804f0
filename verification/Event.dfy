/** The event set (rt-thread/src/ipc.c, rt_event_send, rt_event_recv, rt_event_control). */
module Event {
  import opened Options
  import opened Sequences
  import opened WaitQueue

  /** The bits that are one in a 32-bit word; union, intersection and difference are |, & and & ~. */
  type Bit = b: nat | b < 32
  type Bits = set<Bit>

  /** RT_EVENT_FLAG_AND, RT_EVENT_FLAG_OR and RT_EVENT_FLAG_CLEAR */
  datatype Mode = Mode(and: bool, or: bool, clear: bool)

  /** event_set and event_info of a thread; asked is what event_set was when it began to wait. */
  datatype Info = Info(set_: Bits, mode: Mode, asked: Bits)

  /** What happened to the event set, oldest first: bits sent, bits delivered to a thread that asked for some, and
      resets. */
  datatype Deed = Sent(bits: Bits) | Delivered(t: Tid, asked: Bits, mode: Mode, bits: Bits) | Wiped

  datatype State = State(set_: Bits, flag: Flag, waits: Waits, info: map<Tid, Info>, log: seq<Deed>)

  datatype Op =
    | Send(bits: Bits)
    | Recv(t: Tid, bits: Bits, mode: Mode, timeout: int, prio: map<Tid, int>)
    | RecvResumed(t: Tid)  // the part of rt_event_recv after rt_schedule
    | Reset
    | Expire(t: Tid)

  function Satisfied(mode: Mode, wanted: Bits, present: Bits): bool {
    if mode.and then wanted <= present else wanted * present != {}
  }

  /** The callers' side of the contract: RT_ASSERT demands AND or OR. */
  ghost predicate Enabled(s: State, op: Op) {
    match op
    case Recv(t, _, mode, _, _) => !s.waits.Has(t) && (mode.and || mode.or)
    case RecvResumed(t) => t in s.waits.resumed && t in s.info
    case Expire(t) => t in s.waits.waiting
    case _ => true
  }

  function Cleared(present: Bits, got: Bits, clear: bool): Bits {
    if clear then present - got else present
  }

  /** The i-th waiter gets its bits, and leaves the wait list. */
  function Wake(s: State, i: nat): State
    requires i < |s.waits.waiting| && s.waits.waiting[i] in s.info
  {
    var t := s.waits.waiting[i];
    var info := s.info[t];
    var got := info.set_ * s.set_;
    s.(set_ := Cleared(s.set_, got, info.mode.clear),
       waits := Waits(RemoveAt(s.waits.waiting, i), s.waits.resumed[t := EOK]),
       info := s.info[t := info.(set_ := got)],
       log := s.log + [Delivered(t, info.asked, info.mode, got)])
  }

  /** One walk over the wait list from the i-th waiter on. */
  function Scan(s: State, i: nat): State
    requires forall t :: t in s.waits.waiting ==> t in s.info
    decreases |s.waits.waiting| - i
  {
    if i >= |s.waits.waiting| then s
    else
      var info := s.info[s.waits.waiting[i]];
      if Satisfied(info.mode, info.set_, s.set_) then Scan(Wake(s, i), i) else Scan(s, i + 1)
  }

  function Step(s: State, op: Op): State
    requires forall t :: t in s.waits.waiting ==> t in s.info
  {
    match op
    case Send(bits) => if bits == {} then s else Scan(Raise(s, bits), 0)
    case Recv(t, bits, mode, timeout, prio) =>
      if bits == {} then s
      else if Satisfied(mode, bits, s.set_) then
        var got := bits * s.set_;
        s.(set_ := Cleared(s.set_, got, mode.clear), info := s.info[t := Info(got, mode, bits)],
           log := s.log + [Delivered(t, bits, mode, got)])
      else if timeout == 0 then s
      else s.(waits := s.waits.Suspend(t, s.flag, prio), info := s.info[t := Info(bits, mode, bits)])
    case RecvResumed(t) => s.(waits := s.waits.Rerun(t))
    case Reset => s.(set_ := {}, waits := s.waits.ResumeAll(), log := s.log + [Wiped])
    case Expire(t) => s.(waits := s.waits.Expire(t))
  }

  /** The code returned to the caller, None if it is now suspended, and what *recved is set to. */
  function Return(s: State, op: Op): (Option<Err>, Option<Bits>) {
    match op
    case Send(bits) => (Some(if bits == {} then ERROR else EOK), None)
    case Recv(t, bits, mode, timeout, _) =>
      if bits == {} then (Some(ERROR), None)
      else if Satisfied(mode, bits, s.set_) then (Some(EOK), Some(s.set_ * bits))
      else if timeout == 0 then (Some(ETIMEOUT), None)
      else (None, None)
    case RecvResumed(t) =>
      if t !in s.waits.resumed || t !in s.info then (None, None)
      else if s.waits.resumed[t] != EOK then (Some(s.waits.resumed[t]), None)
      else (Some(EOK), Some(s.info[t].set_))
    case Reset => (Some(EOK), None)
    case Expire(_) => (None, None)
  }

  // ---------------------------------------------------------------- invariants

  /** Each waiter waits for some bits, by AND or by OR. */
  ghost predicate Asking(s: State, t: Tid) {
    && t in s.info
    && (s.info[t].mode.and || s.info[t].mode.or)
    && s.info[t].set_ == s.info[t].asked != {}
  }

  ghost predicate Unserved(s: State, t: Tid) {
    t in s.info && !Satisfied(s.info[t].mode, s.info[t].set_, s.set_)
  }

  /** A thread that was served got all it asked for (AND), or a part of it (OR), never nothing. */
  predicate Served(mode: Mode, asked: Bits, got: Bits) {
    && got != {}
    && (if mode.and then got == asked else got <= asked)
  }

  /** Bit b was sent, and since then neither taken by a CLEAR receiver nor wiped out. */
  ghost predicate Live(log: seq<Deed>, b: Bit) {
    if log == [] then false
    else
      match log[|log| - 1]
      case Sent(bits) => b in bits || Live(log[..|log| - 1], b)
      case Delivered(_, _, mode, bits) => !(mode.clear && b in bits) && Live(log[..|log| - 1], b)
      case Wiped => false
  }

  /** A delivery is all that was asked for and there, never nothing, and everything if so asked (AND). */
  ghost predicate Exact(before: seq<Deed>, d: Deed)
    requires d.Delivered?
  {
    && (forall b :: b in d.bits <==> b in d.asked && Live(before, b))
    && Served(d.mode, d.asked, d.bits)
  }

  ghost predicate Logged(s: State) {
    && (forall b :: b in s.set_ <==> Live(s.log, b))
    && (forall j :: 0 <= j < |s.log| && s.log[j].Delivered? ==> Exact(s.log[..j], s.log[j]))
  }

  /** What thread t got last. */
  function LastTo(log: seq<Deed>, t: Tid): Option<Deed> {
    if log == [] then None
    else
      var last := log[|log| - 1];
      if last.Delivered? && last.t == t then Some(last) else LastTo(log[..|log| - 1], t)
  }

  /** What a resumed thread will be told it got is what it got. */
  ghost predicate Noted(s: State, t: Tid) {
    && t in s.info
    && LastTo(s.log, t) == Some(Delivered(t, s.info[t].asked, s.info[t].mode, s.info[t].set_))
    && Served(s.info[t].mode, s.info[t].asked, s.info[t].set_)
  }

  /** What holds in the middle of a walk, too. */
  ghost predicate Inv0(s: State) {
    && s.waits.Valid()
    && (forall t :: t in s.waits.waiting ==> Asking(s, t))
    && (forall t :: t in s.waits.resumed ==> t in s.info && (s.waits.resumed[t] == EOK ==> Noted(s, t)))
    && Logged(s)
  }

  ghost predicate Inv(s: State) {
    Inv0(s) && forall t :: t in s.waits.waiting ==> Unserved(s, t)
  }

  lemma LogOneMore(s: State, d: Deed, set': Bits)
    requires Logged(s)
    requires d.Sent? ==> set' == s.set_ + d.bits
    requires d.Delivered? ==>
      d.bits == d.asked * s.set_ && Served(d.mode, d.asked, d.bits) && set' == Cleared(s.set_, d.bits, d.mode.clear)
    requires d.Wiped? ==> set' == {}
    ensures Logged(s.(set_ := set', log := s.log + [d]))
    ensures forall t :: LastTo(s.log + [d], t) == if d.Delivered? && d.t == t then Some(d) else LastTo(s.log, t)
  {
    var log' := s.log + [d];
    assert log'[..|s.log|] == s.log;
    forall j | 0 <= j < |log'| && log'[j].Delivered? ensures Exact(log'[..j], log'[j]) {
      assert log'[..j] == s.log[..j];
    }
  }

  lemma WakeKeepsInv0(s: State, i: nat)
    requires Inv0(s) && i < |s.waits.waiting|
    requires forall j :: 0 <= j < i ==> Unserved(s, s.waits.waiting[j])
    requires s.waits.waiting[i] in s.info && !Unserved(s, s.waits.waiting[i])
    ensures Inv0(Wake(s, i))
    ensures forall j :: 0 <= j < i ==>
              Wake(s, i).waits.waiting[j] == s.waits.waiting[j] && Unserved(Wake(s, i), s.waits.waiting[j])
  {
    var t := s.waits.waiting[i];
    assert Asking(s, t);
    var got := s.info[t].set_ * s.set_;
    LogOneMore(s, Delivered(t, s.info[t].asked, s.info[t].mode, got), Cleared(s.set_, got, s.info[t].mode.clear));
    RemoveKeepsDistinct(s.waits.waiting, i);
    forall u | u in Wake(s, i).waits.waiting ensures Asking(Wake(s, i), u) {
      assert Asking(s, u);
    }
  }

  /** A walk that has passed i waiters it could not serve ends with no waiter it could serve. */
  lemma {:induction false} ScanServesAll(s: State, i: nat)
    requires Inv0(s) && i <= |s.waits.waiting|
    requires forall j :: 0 <= j < i ==> Unserved(s, s.waits.waiting[j])
    ensures forall t :: t in s.waits.waiting ==> t in s.info
    ensures Inv(Scan(s, i))
    decreases |s.waits.waiting| - i
  {
    assert forall t :: t in s.waits.waiting ==> Asking(s, t);
    if i < |s.waits.waiting| {
      assert s.waits.waiting[i] in s.waits.waiting;
      if Unserved(s, s.waits.waiting[i]) {
        ScanServesAll(s, i + 1);
      } else {
        WakeKeepsInv0(s, i);
        ScanServesAll(Wake(s, i), i);
      }
    }
  }

  lemma InvAllowsStep(s: State)
    requires Inv0(s)
    ensures forall t :: t in s.waits.waiting ==> t in s.info
  {
    assert forall t :: t in s.waits.waiting ==> Asking(s, t);
  }

  function Raise(s: State, bits: Bits): State {
    s.(set_ := s.set_ + bits, log := s.log + [Sent(bits)])
  }

  lemma RaiseKeepsInv0(s: State, bits: Bits)
    requires Inv(s)
    ensures Inv0(Raise(s, bits))
    ensures forall t :: t in s.waits.waiting ==> t in s.info
  {
    LogOneMore(s, Sent(bits), s.set_ + bits);
    forall t | t in s.waits.waiting ensures Asking(Raise(s, bits), t) {
      assert Asking(s, t);
    }
    assert forall t :: t in s.waits.waiting ==> Asking(s, t);
  }

  lemma SendKeepsInv(s: State, bits: Bits)
    requires Inv(s)
    ensures forall t :: t in s.waits.waiting ==> t in s.info
    ensures Inv(Step(s, Send(bits)))
  {
    RaiseKeepsInv0(s, bits);
    ScanServesAll(Raise(s, bits), 0);
  }

  lemma RecvAtOnceKeepsInv(s: State, op: Op)
    requires Inv(s) && op.Recv? && Enabled(s, op) && op.bits != {} && Satisfied(op.mode, op.bits, s.set_)
    requires forall t :: t in s.waits.waiting ==> t in s.info
    ensures Inv(Step(s, op))
  {
    var s' := Step(s, op);
    var got := op.bits * s.set_;
    LogOneMore(s, Delivered(op.t, op.bits, op.mode, got), Cleared(s.set_, got, op.mode.clear));
    forall t | t in s'.waits.waiting ensures Asking(s', t) && Unserved(s', t) {
      assert Asking(s, t) && Unserved(s, t) && t != op.t;
    }
  }

  lemma RecvSuspendsKeepsInv(s: State, op: Op)
    requires Inv(s) && op.Recv? && Enabled(s, op) && op.bits != {} && !Satisfied(op.mode, op.bits, s.set_)
    requires op.timeout != 0
    requires forall t :: t in s.waits.waiting ==> t in s.info
    ensures Inv(Step(s, op))
  {
    var s' := Step(s, op);
    SuspendIsValid(s.waits, op.t, s.flag, op.prio);
    EnqueueAdds(s.waits.waiting, op.t, s.flag, op.prio);
    forall t | t in s'.waits.waiting ensures Asking(s', t) && Unserved(s', t) {
      if t != op.t {
        assert Asking(s, t) && Unserved(s, t);
      }
    }
  }

  lemma RecvKeepsInv(s: State, op: Op)
    requires Inv(s) && op.Recv? && Enabled(s, op)
    ensures forall t :: t in s.waits.waiting ==> t in s.info
    ensures Inv(Step(s, op))
  {
    InvAllowsStep(s);
    if op.bits != {} {
      if Satisfied(op.mode, op.bits, s.set_) {
        RecvAtOnceKeepsInv(s, op);
      } else if op.timeout != 0 {
        RecvSuspendsKeepsInv(s, op);
      }
    }
  }

  lemma ResetKeepsInv(s: State)
    requires Inv(s)
    ensures forall t :: t in s.waits.waiting ==> t in s.info
    ensures Inv(Step(s, Reset))
  {
    InvAllowsStep(s);
    ResumeAllIsValid(s.waits);
    LogOneMore(s, Wiped, {});
  }

  lemma StepKeepsInv(s: State, op: Op)
    requires Inv(s) && Enabled(s, op)
    ensures forall t :: t in s.waits.waiting ==> t in s.info
    ensures Inv(Step(s, op))
  {
    InvAllowsStep(s);
    var s' := Step(s, op);
    match op
    case Send(bits) => SendKeepsInv(s, bits);
    case Recv(_, _, _, _, _) => RecvKeepsInv(s, op);
    case RecvResumed(t) => RerunIsValid(s.waits, t);
    case Reset => ResetKeepsInv(s);
    case Expire(t) => ExpireIsValid(s.waits, t);
    if !op.Send? && !op.Recv? && !op.Reset? {
      forall t | t in s'.waits.waiting ensures Asking(s', t) && Unserved(s', t) {
        assert Asking(s, t) && Unserved(s, t);
      }
    }
  }

  // ---------------------------------------------------------------- whole runs

  ghost predicate Run(s: State, ops: seq<Op>, s': State)
    requires Inv(s)
    decreases |ops|
  {
    if ops == [] then s == s'
    else
      Enabled(s, ops[0]) && (StepKeepsInv(s, ops[0]); Run(Step(s, ops[0]), ops[1..], s'))
  }

  function Initial(flag: Flag): (s: State)
    ensures Inv(s)
  {
    State({}, flag, NOBODY, map[], [])
  }

  lemma {:induction false} RunKeepsInv(s: State, ops: seq<Op>, s': State)
    requires Inv(s) && Run(s, ops, s')
    ensures Inv(s')
    decreases |ops|
  {
    if ops != [] {
      StepKeepsInv(s, ops[0]);
      RunKeepsInv(Step(s, ops[0]), ops[1..], s');
    }
  }

  /** The wait invariant: in every reachable state a thread that waits for all of its bits (AND) lacks one of them, one
      that waits for any (OR) lacks all of them; and each has AND or OR set, so the exit of rt_event_send for waiters
      with neither is never taken. */
  lemma NoWaiterIsForgotten(flag: Flag, ops: seq<Op>, s: State, t: Tid)
    requires Run(Initial(flag), ops, s) && t in s.waits.waiting
    ensures t in s.info && (s.info[t].mode.and || s.info[t].mode.or)
    ensures s.info[t].mode.and ==> exists b: Bit :: b in s.info[t].asked && b !in s.set_
    ensures !s.info[t].mode.and ==> forall b: Bit :: b in s.info[t].asked ==> b !in s.set_
  {
    RunKeepsInv(Initial(flag), ops, s);
    assert Asking(s, t) && Unserved(s, t);
    var asked := s.info[t].asked;
    if !s.info[t].mode.and {
      forall b: Bit | b in asked ensures b !in s.set_ {
        assert b in s.set_ ==> b in asked * s.set_;
      }
    }
  }

  lemma ReturnIsServed(s: State, op: Op)
    requires Inv(s) && op.RecvResumed? && op.t in s.waits.resumed && s.waits.resumed[op.t] == EOK
    ensures op.t in s.info && Served(s.info[op.t].mode, s.info[op.t].asked, s.info[op.t].set_)
  {
  }

  /** Whoever receives successfully, at once or after a wait, receives what it asked for. */
  lemma ReceivedIsAsked(flag: Flag, ops: seq<Op>, s: State, op: Op)
    requires Run(Initial(flag), ops, s) && Enabled(s, op) && Return(s, op).0 == Some(EOK)
    ensures op.Recv? ==> Return(s, op).1.Some? && Served(op.mode, op.bits, Return(s, op).1.value)
    ensures op.RecvResumed? ==>
              && op.t in s.info && Return(s, op).1.Some?
              && Served(s.info[op.t].mode, s.info[op.t].asked, Return(s, op).1.value)
  {
    RunKeepsInv(Initial(flag), ops, s);
    if op.RecvResumed? {
      ReturnIsServed(s, op);
    }
  }

  lemma {:induction false} LiveNeedsSend(log: seq<Deed>, i: nat, b: Bit)
    requires i < |log| && log[i].Delivered? && log[i].mode.clear && b in log[i].bits
    requires Live(log, b)
    ensures exists k :: i < k < |log| && log[k].Sent? && b in log[k].bits
  {
    var n := |log| - 1;
    if !log[n].Sent? || b !in log[n].bits {
      assert i < n;
      LiveNeedsSend(log[..n], i, b);
    }
  }

  /** CLEAR receivers never share a bit: between two deliveries of the same bit, the first of them to
      a CLEAR receiver, there is a send of that bit. */
  lemma ClearedBitsAreDeliveredOnce(flag: Flag, ops: seq<Op>, s: State, i: nat, j: nat, b: Bit)
    requires Run(Initial(flag), ops, s) && i < j < |s.log|
    requires s.log[i].Delivered? && s.log[i].mode.clear && b in s.log[i].bits
    requires s.log[j].Delivered? && b in s.log[j].bits
    ensures exists k :: i < k < j && s.log[k].Sent? && b in s.log[k].bits
  {
    RunKeepsInv(Initial(flag), ops, s);
    LiveNeedsSend(s.log[..j], i, b);
    var k :| i < k < j && s.log[..j][k].Sent? && b in s.log[..j][k].bits;
    assert s.log[k].Sent? && b in s.log[k].bits;
  }

  /** A walk adds deliveries to the log, and nothing else. */
  lemma {:induction false} ScanDelivers(s: State, i: nat)
    requires forall t :: t in s.waits.waiting ==> t in s.info
    ensures s.log <= Scan(s, i).log
    ensures forall j :: |s.log| <= j < |Scan(s, i).log| ==> Scan(s, i).log[j].Delivered?
    decreases |s.waits.waiting| - i
  {
    if i < |s.waits.waiting| {
      var info := s.info[s.waits.waiting[i]];
      if Satisfied(info.mode, info.set_, s.set_) {
        ScanDelivers(Wake(s, i), i);
      } else {
        ScanDelivers(s, i + 1);
      }
    }
  }

  /** Of the waiters served by one send, one with CLEAR shares no bit with those served after it.  So the sets that
      CLEAR waiters get are pairwise disjoint. */
  lemma OneSendSharesNoClearedBit(s: State, bits: Bits, i: nat, j: nat)
    requires Inv(s)
    requires
      var log := Step(s, Send(bits)).log;
      |s.log| <= i < j < |log| && log[i].Delivered? && log[i].mode.clear && log[j].Delivered?
    ensures Step(s, Send(bits)).log[i].bits * Step(s, Send(bits)).log[j].bits == {}
  {
    StepKeepsInv(s, Send(bits));
    ScanDelivers(Raise(s, bits), 0);
    var log := Step(s, Send(bits)).log;
    forall b | b in log[i].bits && b in log[j].bits ensures false {
      LiveNeedsSend(log[..j], i, b);
    }
  }

  // ------------------------------------------------------ what callers are told

  /** A receiver gets bits at once exactly if all it asks for are set (AND), or any (OR), and then gets those that are;
      CLEAR takes them away from the set.  Otherwise it is told ETIMEOUT exactly if it has no time, and waits for what it
      asked for exactly if it has. */
  lemma ReceiverIsTold(s: State, op: Op)
    requires Inv(s) && Enabled(s, op) && op.Recv?
    ensures forall t :: t in s.waits.waiting ==> t in s.info
    ensures
      var ((r, recved), s') := (Return(s, op), Step(s, op));
      var served :=
        if op.mode.and then forall b: Bit :: b in op.bits ==> b in s.set_ else exists b: Bit :: b in op.bits && b in s.set_;
      && (op.bits == {} ==> r == Some(ERROR) && s' == s)
      && (op.bits != {} ==>
            && (r == Some(EOK) <==> served)
            && (r == Some(EOK) ==>
                  && recved.Some?
                  && (forall b: Bit :: b in recved.value <==> b in op.bits && b in s.set_)
                  && (forall b: Bit :: b in s'.set_ <==> b in s.set_ && !(op.mode.clear && b in op.bits)))
            && (r == Some(ETIMEOUT) <==> !served && op.timeout == 0)
            && (r == Some(ETIMEOUT) ==> s' == s)
            && (r == None <==> !served && op.timeout != 0)
            && (r == None <==> op.t in s'.waits.waiting)
            && (r == None ==> op.t in s'.info && s'.info[op.t].asked == op.bits && s'.info[op.t].mode == op.mode)
            && (r == None ==> s'.set_ == s.set_))
  {
    InvAllowsStep(s);
    SuspendMoves(s.waits, op.t, s.flag, op.prio, op.t);
    if op.bits != {} {
      AskedInBits(op.mode, op.bits, s.set_);
    }
  }

  /** Satisfied, bit by bit */
  lemma AskedInBits(mode: Mode, wanted: Bits, present: Bits)
    ensures mode.and ==> (Satisfied(mode, wanted, present) <==> forall b: Bit :: b in wanted ==> b in present)
    ensures !mode.and ==> (Satisfied(mode, wanted, present) <==> exists b: Bit :: b in wanted && b in present)
  {
    forall b: Bit ensures b in wanted * present <==> b in wanted && b in present {
    }
    if wanted * present != {} {
      var b :| b in wanted * present;
    }
  }

  /** In every reachable state: a bit is set exactly if it was sent, and since then neither taken by a CLEAR receiver nor
      wiped out by a reset; and each receiver, at once or woken, got exactly those bits of what it asked for that were
      set then, at least one, and all if it asked for all. */
  lemma EveryDeliveryIsExact(flag: Flag, ops: seq<Op>, s: State, b: Bit, j: nat)
    requires Run(Initial(flag), ops, s)
    ensures b in s.set_ <==> Live(s.log, b)
    ensures j < |s.log| && s.log[j].Delivered? ==>
              && (b in s.log[j].bits <==> b in s.log[j].asked && Live(s.log[..j], b))
              && s.log[j].bits != {}
              && (s.log[j].mode.and ==> s.log[j].bits == s.log[j].asked)
  {
    RunKeepsInv(Initial(flag), ops, s);
  }

  /** A waiter was woken, and what it got is noted for it; or it is as it was. */
  ghost predicate ServedOrNot(s: State, s': State, u: Tid) {
    || (Where(s.waits, u) == Waiting && Where(s'.waits, u) == Resumed(EOK)
        && u in s.info && u in s'.info && s'.info[u].asked == s.info[u].asked && s'.info[u].mode == s.info[u].mode
        && LastTo(s'.log, u) == Some(Delivered(u, s.info[u].asked, s.info[u].mode, s'.info[u].set_)))
    || (Where(s'.waits, u) == Where(s.waits, u) && LastTo(s'.log, u) == LastTo(s.log, u)
        && (u in s'.info <==> u in s.info) && (u in s.info ==> s'.info[u] == s.info[u]))
  }

  lemma WakeServes(s: State, i: nat, u: Tid)
    requires s.waits.Valid() && i < |s.waits.waiting| && s.waits.waiting[i] in s.info
    ensures ServedOrNot(s, Wake(s, i), u) && Wake(s, i).waits.Valid()
  {
    RemoveKeepsDistinct(s.waits.waiting, i);
    assert Wake(s, i).log[..|s.log|] == s.log;
  }

  lemma {:induction false} ScanServesOrNot(s: State, i: nat, u: Tid)
    requires s.waits.Valid() && forall t :: t in s.waits.waiting ==> t in s.info
    ensures ServedOrNot(s, Scan(s, i), u)
    decreases |s.waits.waiting| - i
  {
    if i < |s.waits.waiting| {
      var info := s.info[s.waits.waiting[i]];
      if Satisfied(info.mode, info.set_, s.set_) {
        WakeServes(s, i, u);
        ScanServesOrNot(Wake(s, i), i, u);
      } else {
        ScanServesOrNot(s, i + 1, u);
      }
    }
  }

  /** Where a step leaves each thread: a send resumes with EOK those it serves, a reset all waiters with an error, a
      timeout its own thread; and a resumed thread is told what it was resumed with, and what it got. */
  lemma WaiterIsTold(s: State, op: Op, u: Tid)
    requires Inv(s) && Enabled(s, op)
    ensures forall t :: t in s.waits.waiting ==> t in s.info
    ensures
      var (s', place) := (Step(s, op), Where(Step(s, op).waits, u));
      match op
      case Send(_) => ServedOrNot(s, s', u)
      case Recv(t, _, _, _, _) => place == if u == t then if Return(s, op).0 == None then Waiting else Away else Where(s.waits, u)
      case RecvResumed(t) => place == if u == t then Away else Where(s.waits, u)
      case Reset => place == if u in s.waits.waiting then Resumed(ERROR) else Where(s.waits, u)
      case Expire(t) => place == if u == t then Resumed(ETIMEOUT) else Where(s.waits, u)
    ensures
      op == RecvResumed(u) ==>
        && Return(s, op).0.Some? && Where(s.waits, u) == Resumed(Return(s, op).0.value)
        && (Return(s, op).0 == Some(EOK) ==>
              Return(s, op).1.Some? && LastTo(s.log, u).Some? && LastTo(s.log, u).value.bits == Return(s, op).1.value)
  {
    InvAllowsStep(s);
    match op
    case Send(bits) =>
      assert Raise(s, bits).log[..|s.log|] == s.log;
      ScanServesOrNot(Raise(s, bits), 0, u);
    case Recv(t, _, _, _, prio) => SuspendMoves(s.waits, t, s.flag, prio, u);
    case RecvResumed(t) => RerunMoves(s.waits, t, u);
    case Reset => ResumeAllMoves(s.waits, u);
    case Expire(t) => ExpireMoves(s.waits, t, u);
  }

  /** A send of no bits is refused and changes nothing; any other succeeds, and its bits are set for those it serves. */
  lemma SenderIsTold(s: State, bits: Bits)
    requires Inv(s)
    ensures forall t :: t in s.waits.waiting ==> t in s.info
    ensures Return(s, Send(bits)).0 == Some(ERROR) <==> bits == {}
    ensures bits == {} ==> Step(s, Send(bits)) == s
    ensures bits != {} ==> Return(s, Send(bits)).0 == Some(EOK) && s.log + [Sent(bits)] <= Step(s, Send(bits)).log
  {
    InvAllowsStep(s);
    ScanDelivers(Raise(s, bits), 0);
  }

  // ------------------------------------------------------------ the order of service

  /** What was set then was not enough. */
  ghost predicate Lacks(log: seq<Deed>, mode: Mode, asked: Bits) {
    if mode.and then exists b: Bit :: b in asked && !Live(log, b) else forall b: Bit :: b in asked ==> !Live(log, b)
  }

  lemma UnservedLacks(s: State, t: Tid)
    requires Logged(s) && Unserved(s, t)
    ensures Lacks(s.log, s.info[t].mode, s.info[t].set_)
  {
    AskedInBits(s.info[t].mode, s.info[t].set_, s.set_);
  }

  /** A waiter that the walk has passed stays without its bits while it goes on. */
  lemma {:induction false} PassedLacks(s: State, i: nat, p: nat, j: nat)
    requires Inv0(s) && p < i <= |s.waits.waiting| && forall k :: 0 <= k < i ==> Unserved(s, s.waits.waiting[k])
    requires forall t :: t in s.waits.waiting ==> t in s.info
    requires |s.log| <= j < |Scan(s, i).log|
    ensures
      var w := s.waits.waiting[p];
      w in s.info && Lacks(Scan(s, i).log[..j], s.info[w].mode, s.info[w].set_)
    decreases |s.waits.waiting| - i
  {
    if i < |s.waits.waiting| {
      var w := s.waits.waiting[p];
      assert s.waits.waiting[i] in s.waits.waiting;
      if Unserved(s, s.waits.waiting[i]) {
        PassedLacks(s, i + 1, p, j);
      } else {
        WakeKeepsInv0(s, i);
        InvAllowsStep(Wake(s, i));
        ScanDelivers(Wake(s, i), i);
        if j == |s.log| {
          assert Scan(s, i).log[..j] == Wake(s, i).log[..j] == s.log;
          UnservedLacks(s, w);
        } else {
          PassedLacks(Wake(s, i), i, p, j);
        }
      }
    }
  }

  /** When v is served, w has been served already or cannot be. */
  ghost predicate Turn(log: seq<Deed>, start: nat, w: Tid, mode: Mode, asked: Bits, v: Tid) {
    forall j :: start <= j < |log| && log[j].Delivered? && log[j].t == v ==>
      (exists k :: start <= k < j && log[k].Delivered? && log[k].t == w) || Lacks(log[..j], mode, asked)
  }

  lemma WokenInTurn(s: State, i: nat, q: nat, w: Tid, mode: Mode, asked: Bits, log: seq<Deed>)
    requires Inv0(s) && i < q < |s.waits.waiting| && s.waits.waiting[i] in s.info
    requires Wake(s, i).log <= log
    requires w == s.waits.waiting[i] || Turn(log, |s.log| + 1, w, mode, asked, s.waits.waiting[q])
    ensures Turn(log, |s.log|, w, mode, asked, s.waits.waiting[q])
  {
    assert log[|s.log|] == Wake(s, i).log[|s.log|] && log[|s.log|].Delivered? && log[|s.log|].t == s.waits.waiting[i];
    assert s.waits.waiting[i] != s.waits.waiting[q];
  }

  lemma {:induction false} ScanInTurn(s: State, i: nat, p: nat, q: nat)
    requires Inv0(s) && i <= |s.waits.waiting| && p < q < |s.waits.waiting|
    requires forall k :: 0 <= k < i ==> Unserved(s, s.waits.waiting[k])
    requires forall t :: t in s.waits.waiting ==> t in s.info
    ensures
      var (w, v) := (s.waits.waiting[p], s.waits.waiting[q]);
      w in s.info && Turn(Scan(s, i).log, |s.log|, w, s.info[w].mode, s.info[w].set_, v)
    decreases |s.waits.waiting| - i
  {
    var w, v, log := s.waits.waiting[p], s.waits.waiting[q], Scan(s, i).log;
    assert w in s.waits.waiting;
    if p < i {
      forall j | |s.log| <= j < |log| ensures Lacks(log[..j], s.info[w].mode, s.info[w].set_) {
        PassedLacks(s, i, p, j);
      }
    } else if Unserved(s, s.waits.waiting[i]) {
      ScanInTurn(s, i + 1, p, q);
    } else {
      assert s.waits.waiting[i] in s.waits.waiting;
      WakeKeepsInv0(s, i);
      InvAllowsStep(Wake(s, i));
      ScanDelivers(Wake(s, i), i);
      if p > i {
        assert w != s.waits.waiting[i];
        ScanInTurn(Wake(s, i), i, p - 1, q - 1);
      }
      WokenInTurn(s, i, q, w, s.info[w].mode, s.info[w].set_, log);
    }
  }

  /** A send serves its waiters in the order of the wait list: when it serves one, each that stands before it has been
      served already, or cannot be with the bits that are left. */
  lemma ServiceIsInTurn(s: State, bits: Bits, p: nat, q: nat)
    requires Inv(s) && p < q < |s.waits.waiting| && bits != {}
    ensures forall t :: t in s.waits.waiting ==> t in s.info
    ensures
      var (w, v) := (s.waits.waiting[p], s.waits.waiting[q]);
      w in s.info && Turn(Step(s, Send(bits)).log, |s.log| + 1, w, s.info[w].mode, s.info[w].asked, v)
  {
    RaiseKeepsInv0(s, bits);
    ScanInTurn(Raise(s, bits), 0, p, q);
    assert Asking(s, s.waits.waiting[p]);
  }

  // -------------------------------------------------------------- the operations

  class RtEvent {
    var set_: Bits
    var waits: Waits
    var info: map<Tid, Info>
    const flag: Flag
    ghost var log: seq<Deed>

    ghost function Abs(): State
      reads this
    {
      State(set_, flag, waits, info, log)
    }

    /** rt_event_init */
    constructor (flag: Flag)
      ensures Abs() == Initial(flag)
    {
      set_, waits, info, log := {}, NOBODY, map[], [];
      this.flag := flag;
    }

    /** The body of the loop in rt_event_send: the n-th waiter is resumed if it can be served. */
    method Offer(n: nat) returns (served: bool)
      requires n < |waits.waiting| && Asking(Abs(), waits.waiting[n])
      modifies this
      ensures served <==> !old(Unserved(Abs(), waits.waiting[n]))
      ensures Abs() == if served then Wake(old(Abs()), n) else old(Abs())
    {
      var thread := waits.waiting[n];
      var status := ERROR;
      if info[thread].mode.and {
        if info[thread].set_ * set_ == info[thread].set_ {
          status := EOK;
        }
      } else if info[thread].mode.or {
        if info[thread].set_ * set_ != {} {
          info := info[thread := info[thread].(set_ := info[thread].set_ * set_)];
          status := EOK;
        }
      } else {
        assert false;
      }
      if status == EOK {
        log := log + [Delivered(thread, info[thread].asked, info[thread].mode, info[thread].set_)];
        if info[thread].mode.clear {
          set_ := set_ - info[thread].set_;
        }
        waits := Waits(RemoveAt(waits.waiting, n), waits.resumed[thread := EOK]);
        assert info == Wake(old(Abs()), n).info;
      }
      served := status == EOK;
    }

    /** rt_event_send.  Its exit with RT_EINVAL is never taken. */
    method Send(bits: Bits) returns (ret: Err)
      requires Inv(Abs())
      modifies this
      ensures Inv(Abs()) && (InvAllowsStep(old(Abs())); Abs() == Step(old(Abs()), Op.Send(bits)))
      ensures Some(ret) == Return(old(Abs()), Op.Send(bits)).0
    {
      InvAllowsStep(Abs());
      SendKeepsInv(Abs(), bits);
      if bits == {} {
        return ERROR;
      }
      RaiseKeepsInv0(Abs(), bits);
      set_ := set_ + bits;
      log := log + [Sent(bits)];
      ghost var start := Abs();
      var n := 0;
      while n < |waits.waiting|
        invariant n <= |waits.waiting|
        invariant Inv0(Abs())
        invariant forall j :: 0 <= j < n ==> Unserved(Abs(), waits.waiting[j])
        invariant forall t :: t in waits.waiting ==> t in info
        invariant Scan(Abs(), n) == Scan(start, 0)
        decreases |waits.waiting| - n
      {
        ghost var s := Abs();
        var served := Offer(n);
        if served {
          WakeKeepsInv0(s, n);
          InvAllowsStep(Abs());
        } else {
          n := n + 1;
        }
      }
      return EOK;
    }

    /** rt_event_recv, up to the call of rt_schedule if it comes to that */
    method Recv(t: Tid, bits: Bits, mode: Mode, timeout: int, prio: map<Tid, int>)
      returns (ret: Option<Err>, recved: Option<Bits>)
      requires Inv(Abs()) && Enabled(Abs(), Op.Recv(t, bits, mode, timeout, prio))
      modifies this
      ensures
        && Inv(Abs())
        && (InvAllowsStep(old(Abs())); Abs() == Step(old(Abs()), Op.Recv(t, bits, mode, timeout, prio)))
      ensures (ret, recved) == Return(old(Abs()), Op.Recv(t, bits, mode, timeout, prio))
    {
      InvAllowsStep(Abs());
      RecvKeepsInv(Abs(), Op.Recv(t, bits, mode, timeout, prio));
      if bits == {} {
        return Some(ERROR), None;
      }
      var status := ERROR;
      if mode.and {
        if set_ * bits == bits {
          status := EOK;
        }
      } else if mode.or {
        if set_ * bits != {} {
          status := EOK;
        }
      }
      if status == EOK {
        recved := Some(set_ * bits);
        info := info[t := Info(set_ * bits, mode, bits)];
        log := log + [Delivered(t, bits, mode, set_ * bits)];
        if mode.clear {
          assert set_ - bits == set_ - set_ * bits;
          set_ := set_ - bits;
        }
        assert bits * old(set_) == old(set_) * bits;
        ret := Some(EOK);
      } else if timeout == 0 {
        return Some(ETIMEOUT), None;
      } else {
        info := info[t := Info(bits, mode, bits)];
        waits := waits.Suspend(t, flag, prio);
        return None, None;
      }
    }

    /** rt_event_recv after rt_schedule */
    method RecvResumed(t: Tid) returns (ret: Option<Err>, recved: Option<Bits>)
      requires Inv(Abs()) && Enabled(Abs(), Op.RecvResumed(t))
      modifies this
      ensures Inv(Abs()) && (InvAllowsStep(old(Abs())); Abs() == Step(old(Abs()), Op.RecvResumed(t)))
      ensures (ret, recved) == Return(old(Abs()), Op.RecvResumed(t))
    {
      InvAllowsStep(Abs());
      StepKeepsInv(Abs(), Op.RecvResumed(t));
      var error := waits.resumed[t];
      waits := waits.Rerun(t);
      if error != EOK {
        return Some(error), None;
      }
      return Some(EOK), Some(info[t].set_);
    }

    /** rt_event_control with RT_IPC_CMD_RESET */
    method Reset()
      requires Inv(Abs())
      modifies this
      ensures Inv(Abs()) && (InvAllowsStep(old(Abs())); Abs() == Step(old(Abs()), Op.Reset))
    {
      InvAllowsStep(Abs());
      StepKeepsInv(Abs(), Op.Reset);
      waits := waits.ResumeAll();
      set_ := {};
      log := log + [Wiped];
    }
  }
}
