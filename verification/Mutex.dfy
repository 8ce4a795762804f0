/** The recursive mutex with priority inheritance (rt-thread/src/ipc.c, rt_mutex_take and
    rt_mutex_release): one mutex, and the thread priorities it works on. */
module Mutex {
  import opened Options
  import opened WaitQueue

  const VALUE_MAX: nat := 65535
  const HOLD_MAX: nat := 255
  const NO_PRIORITY: int := 0xFF

  datatype State = State(value: nat, owner: Option<Tid>, original: int, hold: nat, flag: Flag, waits: Waits)

  function Initial(flag: Flag): State {
    State(1, None, NO_PRIORITY, 0, flag, NOBODY)
  }

  /** The operations of a thread on one mutex, each one region with interrupts disabled. */
  datatype Call =
    | Take(time: int)
    | TakeResumed  // the part of rt_mutex_take after rt_schedule
    | Release
    | Expire       // the timer of the waiting thread fires

  /** A mutex is free, or it has one owner that holds it; nobody waits for a free one. */
  ghost predicate Exclusive(x: State) {
    && x.waits.Valid()
    && (if x.owner.None? then x.value == 1 && x.hold == 0 && x.waits.waiting == []
        else x.value == 0 && 1 <= x.hold <= HOLD_MAX && x.owner.value !in x.waits.waiting)
  }

  ghost predicate Enabled(x: State, t: Tid, call: Call) {
    match call
    case TakeResumed => t in x.waits.resumed
    case Expire => t in x.waits.waiting
    case _ => !x.waits.Has(t)
  }

  /** The code returned to t; None if t is now suspended. */
  function Return(x: State, t: Tid, call: Call): Option<Err> {
    match call
    case Take(time) =>
      if x.owner == Some(t) then Some(if x.hold < HOLD_MAX then EOK else EFULL)
      else if x.value > 0 then Some(EOK)
      else if time == 0 then Some(ETIMEOUT)
      else None
    case TakeResumed => if t in x.waits.resumed then Some(x.waits.resumed[t]) else None
    case Release => if x.owner == Some(t) then Some(EOK) else Some(ERROR)
    case Expire => None
  }

  /** The priorities after the call: a waiter lends its priority to a less urgent owner, and the
      release that gives the mutex up ends every loan to t. */
  function Priorities(x: State, prio: map<Tid, int>, t: Tid, call: Call): map<Tid, int> {
    match call
    case Take(time) =>
      if Return(x, t, call) == None && x.owner.Some? && Prio(prio, t) < Prio(prio, x.owner.value)
      then prio[x.owner.value := Prio(prio, t)]
      else prio
    case Release =>
      if x.owner == Some(t) && x.hold == 1 && x.original != Prio(prio, t) then prio[t := x.original] else prio
    case _ => prio
  }

  function Step(x: State, prio: map<Tid, int>, t: Tid, call: Call): State {
    var prio' := Priorities(x, prio, t, call);
    match call
    case Take(time) =>
      if x.owner == Some(t) then (if x.hold < HOLD_MAX then x.(hold := x.hold + 1) else x)
      else if x.value > 0 then x.(value := x.value - 1, owner := Some(t), original := Prio(prio', t), hold := 1)
      else if time == 0 then x
      else x.(waits := x.waits.Suspend(t, x.flag, prio'))
    case TakeResumed => x.(waits := x.waits.Rerun(t))
    case Release =>
      if x.owner != Some(t) || x.hold == 0 then x
      else if x.hold > 1 then x.(hold := x.hold - 1)
      else if x.waits.waiting == [] then x.(value := x.value + 1, owner := None, original := NO_PRIORITY, hold := 0)
      else
        var next := x.waits.waiting[0];
        x.(owner := Some(next), original := Prio(prio', next), waits := x.waits.ResumeFirst())
    case Expire => x.(waits := x.waits.Expire(t))
  }

  lemma StepIsExclusive(x: State, prio: map<Tid, int>, t: Tid, call: Call)
    requires Exclusive(x) && Enabled(x, t, call)
    ensures Exclusive(Step(x, prio, t, call))
    ensures forall u :: u != t ==> (Step(x, prio, t, call).waits.Has(u) <==> x.waits.Has(u))
    ensures Step(x, prio, t, call).waits.Has(t) ==> x.waits.Has(t) || Return(x, t, call) == None
  {
    match call
    case Take(_) => SuspendIsValid(x.waits, t, x.flag, Priorities(x, prio, t, call));
    case TakeResumed => RerunIsValid(x.waits, t);
    case Release =>
      if x.waits.waiting != [] {
        ResumeFirstIsValid(x.waits);
        assert x.waits.waiting[0] !in x.waits.waiting[1..];
      }
    case Expire => ExpireIsValid(x.waits, t);
  }

  // ------------------------------------------------------------ the operations

  /** The current priorities of the threads. */
  class Scheduler {
    var current: map<Tid, int>

    /** rt_thread_control with RT_THREAD_CTRL_CHANGE_PRIORITY */
    method ChangePriority(t: Tid, p: int)
      modifies this
      ensures current == old(current)[t := p]
    {
      current := current[t := p];
    }
  }

  class RtMutex {
    var value: nat
    var originalPriority: int
    var hold: nat
    var owner: Option<Tid>
    var waits: Waits
    const flag: Flag

    function Abs(): State
      reads this
    {
      State(value, owner, originalPriority, hold, flag, waits)
    }

    /** rt_mutex_init */
    constructor (flag: Flag)
      ensures Abs() == Initial(flag) && Exclusive(Abs())
    {
      this.flag := flag;
      value, owner, originalPriority, hold, waits := 1, None, NO_PRIORITY, 0, NOBODY;
    }

    /** rt_mutex_take, up to the call of rt_schedule if it comes to that.  The second overflow exit
        of the code is never taken: a mutex that is taken anew is held zero times. */
    method Take(scheduler: Scheduler, thread: Tid, time: int) returns (ret: Option<Err>)
      requires Exclusive(Abs()) && Enabled(Abs(), thread, Call.Take(time))
      modifies this, scheduler
      ensures Exclusive(Abs()) && Abs() == Step(old(Abs()), old(scheduler.current), thread, Call.Take(time))
      ensures scheduler.current == Priorities(old(Abs()), old(scheduler.current), thread, Call.Take(time))
      ensures ret == Return(old(Abs()), thread, Call.Take(time))
    {
      StepIsExclusive(Abs(), scheduler.current, thread, Call.Take(time));
      if owner == Some(thread) {
        if hold < HOLD_MAX {
          hold := hold + 1;
        } else {
          return Some(EFULL);
        }
      } else {
        if value > 0 {
          value := value - 1;
          owner := Some(thread);
          originalPriority := Prio(scheduler.current, thread);
          if hold < HOLD_MAX {
            hold := hold + 1;
          } else {
            assert false;
          }
        } else {
          if time == 0 {
            return Some(ETIMEOUT);
          } else {
            if Prio(scheduler.current, thread) < Prio(scheduler.current, owner.value) {
              scheduler.ChangePriority(owner.value, Prio(scheduler.current, thread));
            }
            waits := waits.Suspend(thread, flag, scheduler.current);
            return None;
          }
        }
      }
      return Some(EOK);
    }

    /** rt_mutex_take after rt_schedule: by then the mutex has been handed over, or the wait failed. */
    method TakeResumed(scheduler: Scheduler, thread: Tid) returns (ret: Option<Err>)
      requires Exclusive(Abs()) && Enabled(Abs(), thread, Call.TakeResumed)
      modifies this
      ensures Exclusive(Abs()) && Abs() == Step(old(Abs()), scheduler.current, thread, Call.TakeResumed)
      ensures ret == Return(old(Abs()), thread, Call.TakeResumed)
    {
      StepIsExclusive(Abs(), scheduler.current, thread, Call.TakeResumed);
      var error := waits.resumed[thread];
      waits := waits.Rerun(thread);
      if error != EOK {
        return Some(error);
      }
      return Some(EOK);
    }

    /** rt_mutex_release; neither of its overflow exits is ever taken. */
    method Release(scheduler: Scheduler, thread: Tid) returns (ret: Option<Err>)
      requires Exclusive(Abs()) && Enabled(Abs(), thread, Call.Release)
      modifies this, scheduler
      ensures Exclusive(Abs()) && Abs() == Step(old(Abs()), old(scheduler.current), thread, Call.Release)
      ensures scheduler.current == Priorities(old(Abs()), old(scheduler.current), thread, Call.Release)
      ensures ret == Return(old(Abs()), thread, Call.Release)
    {
      StepIsExclusive(Abs(), scheduler.current, thread, Call.Release);
      if owner != Some(thread) {
        return Some(ERROR);
      }
      hold := hold - 1;
      if hold == 0 {
        if originalPriority != Prio(scheduler.current, owner.value) {
          scheduler.ChangePriority(owner.value, originalPriority);
        }
        if waits.waiting != [] {
          var next := waits.waiting[0];
          owner := Some(next);
          originalPriority := Prio(scheduler.current, next);
          if hold < HOLD_MAX {
            hold := hold + 1;
          } else {
            assert false;
          }
          waits := waits.ResumeFirst();
        } else {
          if value < VALUE_MAX {
            value := value + 1;
          } else {
            assert false;
          }
          owner := None;
          originalPriority := NO_PRIORITY;
        }
      }
      return Some(EOK);
    }
  }
}
