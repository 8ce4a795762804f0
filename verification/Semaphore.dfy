/** The counting semaphore (rt-thread/src/ipc.c, rt_sem_init to rt_sem_control). */
module Semaphore {
  import opened Options
  import opened WaitQueue

  const VALUE_MAX: nat := 65535

  datatype State = State(value: nat, flag: Flag, waits: Waits)

  /** Each operation is one region of code that runs with interrupts disabled. */
  datatype Op =
    | Take(t: Tid, time: int, prio: map<Tid, int>)
    | TakeResumed(t: Tid)  // the part of rt_sem_take after rt_schedule
    | Release
    | Reset(arg: nat)
    | Expire(t: Tid)       // the timer of a waiting thread fires

  ghost predicate Enabled(s: State, op: Op) {
    match op
    case Take(t, _, _) => !s.waits.Has(t)
    case TakeResumed(t) => t in s.waits.resumed
    case Expire(t) => t in s.waits.waiting
    case _ => true
  }

  /** The code an operation returns to its caller; None if the caller is now suspended. */
  function Return(s: State, op: Op): Option<Err> {
    match op
    case Take(_, time, _) => if s.value > 0 then Some(EOK) else if time == 0 then Some(ETIMEOUT) else None
    case TakeResumed(t) => if t in s.waits.resumed then Some(s.waits.resumed[t]) else None
    case Release => if s.waits.waiting == [] && s.value >= VALUE_MAX then Some(EFULL) else Some(EOK)
    case Reset(_) => Some(EOK)
    case Expire(_) => None
  }

  function Step(s: State, op: Op): State {
    match op
    case Take(t, time, prio) =>
      if s.value > 0 then s.(value := s.value - 1)
      else if time == 0 then s
      else s.(waits := s.waits.Suspend(t, s.flag, prio))
    case TakeResumed(t) => s.(waits := s.waits.Rerun(t))
    case Release =>
      if s.waits.waiting != [] then s.(waits := s.waits.ResumeFirst())
      else if s.value < VALUE_MAX then s.(value := s.value + 1)
      else s
    case Reset(arg) => s.(value := arg % 65536, waits := s.waits.ResumeAll())
    case Expire(t) => s.(waits := s.waits.Expire(t))
  }

  class RtSemaphore {
    var value: nat
    var waits: Waits
    const flag: Flag

    function Abs(): State
      reads this
    {
      State(value, flag, waits)
    }

    /** rt_sem_init */
    constructor (value: nat, flag: Flag)
      requires value < 0x10000
      ensures Abs() == State(value, flag, NOBODY)
    {
      this.value, this.flag, waits := value, flag, NOBODY;
    }

    /** rt_sem_take, up to the call of rt_schedule if it comes to that */
    method Take(t: Tid, time: int, prio: map<Tid, int>) returns (ret: Option<Err>)
      requires Enabled(Abs(), Op.Take(t, time, prio))
      modifies this
      ensures Abs() == Step(old(Abs()), Op.Take(t, time, prio))
      ensures ret == Return(old(Abs()), Op.Take(t, time, prio))
    {
      if value > 0 {
        value := value - 1;
      } else {
        if time == 0 {
          return Some(ETIMEOUT);
        } else {
          waits := waits.Suspend(t, flag, prio);
          return None;
        }
      }
      return Some(EOK);
    }

    method TakeResumed(t: Tid) returns (ret: Option<Err>)
      requires Enabled(Abs(), Op.TakeResumed(t))
      modifies this
      ensures Abs() == Step(old(Abs()), Op.TakeResumed(t))
      ensures ret == Return(old(Abs()), Op.TakeResumed(t))
    {
      var error := waits.resumed[t];
      waits := waits.Rerun(t);
      if error != EOK {
        return Some(error);
      }
      return Some(EOK);
    }

    method Release() returns (ret: Option<Err>)
      modifies this
      ensures Abs() == Step(old(Abs()), Op.Release)
      ensures ret == Return(old(Abs()), Op.Release)
    {
      if waits.waiting != [] {
        waits := waits.ResumeFirst();
      } else {
        if value < VALUE_MAX {
          value := value + 1;
        } else {
          return Some(EFULL);
        }
      }
      return Some(EOK);
    }

    /** rt_sem_control with RT_IPC_CMD_RESET */
    method Reset(arg: nat) returns (ret: Option<Err>)
      modifies this
      ensures Abs() == Step(old(Abs()), Op.Reset(arg))
      ensures ret == Return(old(Abs()), Op.Reset(arg))
    {
      waits := waits.ResumeAll();
      value := arg % 65536;
      return Some(EOK);
    }
  }

  // ------------------------------------------------------------------- whole runs

  /** What the callers see: how many takes and releases have returned success, and the value they
      started from.  A reset starts a new account; the takes already granted go with it. */
  datatype Account = Account(start: nat, takes: nat, releases: nat)

  function Book(a: Account, s: State, op: Op): Account {
    match op
    case Reset(arg) => Account(arg % 65536 + |s.waits.Ready()|, 0, 0)
    case Release => if Return(s, op) == Some(EOK) then a.(releases := a.releases + 1) else a
    case _ => if Return(s, op) == Some(EOK) then a.(takes := a.takes + 1) else a
  }

  ghost predicate Run(s: State, a: Account, ops: seq<Op>, s': State, a': Account)
    decreases |ops|
  {
    if ops == [] then s == s' && a == a'
    else Enabled(s, ops[0]) && Run(Step(s, ops[0]), Book(a, s, ops[0]), ops[1..], s', a')
  }

  /** A positive value and a waiting thread exclude each other, and no unit is lost or made up:
      the value, the successful takes and the takes granted to threads that have yet to run add
      up to the initial value and the successful releases. */
  ghost predicate Inv(s: State, a: Account) {
    && s.waits.Valid()
    && s.value <= VALUE_MAX
    && (s.value > 0 ==> s.waits.waiting == [])
    && s.value + a.takes + |s.waits.Ready()| == a.start + a.releases
  }

  lemma StepKeepsInv(s: State, a: Account, op: Op)
    requires Inv(s, a) && Enabled(s, op)
    ensures Inv(Step(s, op), Book(a, s, op))
  {
    match op
    case Take(t, time, prio) => SuspendIsValid(s.waits, t, s.flag, prio);
    case TakeResumed(t) => RerunIsValid(s.waits, t);
    case Release => if s.waits.waiting != [] { ResumeFirstIsValid(s.waits); }
    case Reset(_) => ResumeAllIsValid(s.waits);
    case Expire(t) => ExpireIsValid(s.waits, t);
  }

  /** Whatever the threads do, in whatever order. */
  lemma {:induction false} RunKeepsInv(s: State, a: Account, ops: seq<Op>, s': State, a': Account)
    requires Inv(s, a) && Run(s, a, ops, s', a')
    ensures Inv(s', a')
    decreases |ops|
  {
    if ops != [] {
      StepKeepsInv(s, a, ops[0]);
      RunKeepsInv(Step(s, ops[0]), Book(a, s, ops[0]), ops[1..], s', a');
    }
  }

  lemma NoUnitIsLost(value: nat, flag: Flag, ops: seq<Op>, s: State, a: Account)
    requires value < 0x10000
    requires Run(State(value, flag, NOBODY), Account(value, 0, 0), ops, s, a)
    ensures s.value > 0 ==> s.waits.waiting == []
    ensures s.value + a.takes + |s.waits.Ready()| == a.start + a.releases
  {
    assert NOBODY.Ready() == {};
    RunKeepsInv(State(value, flag, NOBODY), Account(value, 0, 0), ops, s, a);
  }

  // ------------------------------------------------------ what callers are told

  /** A take returns EOK with a unit of its own, ETIMEOUT at once exactly if there is none and the caller has no time,
      and waits exactly if there is none and it has. */
  lemma TakerIsTold(s: State, op: Op)
    requires s.waits.Valid() && Enabled(s, op) && op.Take?
    ensures
      var (r, s') := (Return(s, op), Step(s, op));
      && (r == Some(EOK) <==> s.value > 0)
      && (r == Some(EOK) ==> s'.value == s.value - 1 && s'.waits == s.waits)
      && (r == Some(ETIMEOUT) <==> s.value == 0 && op.time == 0)
      && (r == Some(ETIMEOUT) ==> s' == s)
      && (r == None <==> s.value == 0 && op.time != 0)
      && (r == None <==> op.t in s'.waits.waiting)
      && (r == None ==> s'.value == s.value)
  {
    SuspendIsValid(s.waits, op.t, s.flag, op.prio);
  }

  /** A release fails exactly if nobody waits and the value is at its maximum, and then changes nothing; else it is
      one more unit, or the first waiter's. */
  lemma ReleaserIsTold(s: State)
    requires s.waits.Valid() && s.value <= VALUE_MAX
    ensures
      var (r, s') := (Return(s, Release), Step(s, Release));
      && (r == Some(EFULL) <==> s.waits.waiting == [] && s.value == VALUE_MAX)
      && (r == Some(EFULL) ==> s' == s)
      && (r != Some(EFULL) ==> r == Some(EOK))
      && (r == Some(EOK) && s.waits.waiting == [] ==> s'.value == s.value + 1)
      && (s.waits.waiting != [] ==>
            s'.value == s.value && s.waits.waiting[0] !in s'.waits.waiting && s.waits.waiting[0] in s'.waits.Ready())
  {
    if s.waits.waiting != [] {
      assert s.waits.waiting[0] !in s.waits.waiting[1..];
    }
  }

  /** A reset sets the value, in 16 bits, whatever it was. */
  lemma ResetSets(s: State, arg: nat)
    ensures Return(s, Reset(arg)) == Some(EOK) && Step(s, Reset(arg)).value < 65536
    ensures (arg - Step(s, Reset(arg)).value) % 65536 == 0
  {
  }

  /** Where a call leaves each thread: the caller that is not served waits; a release resumes the first waiter with
      EOK, a reset all of them with an error, a timeout its own thread with ETIMEOUT; and nothing else changes what a
      resumed thread is told when it runs again. */
  lemma WaiterIsTold(s: State, op: Op, u: Tid)
    requires s.waits.Valid() && Enabled(s, op)
    ensures
      Where(Step(s, op).waits, u) ==
        match op
        case Take(t, time, _) => if u == t && s.value == 0 && time != 0 then Waiting else Where(s.waits, u)
        case TakeResumed(t) => if u == t then Away else Where(s.waits, u)
        case Release => if s.waits.waiting != [] && u == s.waits.waiting[0] then Resumed(EOK) else Where(s.waits, u)
        case Reset(_) => if u in s.waits.waiting then Resumed(ERROR) else Where(s.waits, u)
        case Expire(t) => if u == t then Resumed(ETIMEOUT) else Where(s.waits, u)
    ensures op == TakeResumed(u) ==> Return(s, op).Some? && Where(s.waits, u) == Resumed(Return(s, op).value)
  {
    match op
    case Take(t, _, prio) => SuspendMoves(s.waits, t, s.flag, prio, u);
    case TakeResumed(t) => RerunMoves(s.waits, t, u);
    case Release =>
      if s.waits.waiting != [] {
        ResumeFirstMoves(s.waits, u);
      }
    case Reset(_) => ResumeAllMoves(s.waits, u);
    case Expire(t) => ExpireMoves(s.waits, t, u);
  }
}
