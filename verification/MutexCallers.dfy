/** What the callers of rt_mutex_take and rt_mutex_release are told (rt-thread/src/ipc.c), and mutual exclusion as they
    see it, by the codes returned to them. */
module MutexCallers {
  import opened Options
  import opened WaitQueue
  import opened MutexRuns
  import M = Mutex

  // ----------------------------------------------------------------- one call

  /** A take returns EOK with the mutex taken once more, by its owner or from nobody; EFULL exactly if the owner holds
      it as often as it can; ETIMEOUT at once exactly if another owns it and the caller has no time; and the caller
      waits exactly if another owns it and it has. */
  lemma TakerIsTold(x: M.State, prio: map<Tid, int>, t: Tid, time: int)
    requires M.Exclusive(x) && M.Enabled(x, t, M.Take(time))
    ensures
      var (r, x') := (M.Return(x, t, M.Take(time)), M.Step(x, prio, t, M.Take(time)));
      && (r == Some(EOK) ==> x'.owner == Some(t) && x'.hold == (if x.owner == Some(t) then x.hold else 0) + 1)
      && (r == Some(EOK) <==> x.owner == None || (x.owner == Some(t) && x.hold < 255))
      && (r == Some(EFULL) <==> x.owner == Some(t) && x.hold == 255)
      && (r == Some(ETIMEOUT) <==> x.owner.Some? && x.owner != Some(t) && time == 0)
      && (r == None <==> x.owner.Some? && x.owner != Some(t) && time != 0)
      && (r == None <==> t in x'.waits.waiting)
      && (r != Some(EOK) ==> x'.owner == x.owner && x'.hold == x.hold)
      && (r == Some(EFULL) || r == Some(ETIMEOUT) ==> x' == x)
  {
    SuspendMoves(x.waits, t, x.flag, M.Priorities(x, prio, t, M.Take(time)), t);
  }

  /** A release returns EOK exactly to the owner, who then owns the mutex exactly if it held it more than once; it
      changes nothing for anybody else, who is told ERROR.  The next owner is the first waiter. */
  lemma ReleaserIsTold(x: M.State, prio: map<Tid, int>, t: Tid)
    requires M.Exclusive(x) && M.Enabled(x, t, M.Release)
    ensures
      var (r, x') := (M.Return(x, t, M.Release), M.Step(x, prio, t, M.Release));
      && (r == Some(EOK) <==> x.owner == Some(t))
      && (r != Some(EOK) ==> r == Some(ERROR) && x' == x)
      && (r == Some(EOK) ==> (x'.owner == Some(t) <==> x.hold > 1))
      && (r == Some(EOK) && x.hold > 1 ==> x'.hold == x.hold - 1 && x'.waits == x.waits)
      && (r == Some(EOK) && x.hold == 1 && x.waits.waiting == [] ==> x'.owner == None)
      && (r == Some(EOK) && x.hold == 1 && x.waits.waiting != [] ==>
            x'.owner == Some(x.waits.waiting[0]) && x'.hold == 1 && x'.waits.waiting == x.waits.waiting[1..])
  {
    assert x.owner == Some(t) && x.waits.waiting != [] ==> x.waits.waiting[0] in x.waits.waiting;
  }

  /** Where a call leaves each thread: the first waiter is resumed, with EOK, exactly when the mutex becomes its own. */
  lemma WaiterIsTold(x: M.State, prio: map<Tid, int>, t: Tid, call: M.Call, u: Tid)
    requires M.Exclusive(x) && M.Enabled(x, t, call)
    ensures
      var x' := M.Step(x, prio, t, call);
      Where(x'.waits, u) ==
        (if call.Take? && u == t then if M.Return(x, t, call) == None then Waiting else Away
         else if call == M.TakeResumed && u == t then Away
         else if call == M.Expire && u == t then Resumed(ETIMEOUT)
         else if u in x.waits.waiting && x'.owner == Some(u) then Resumed(EOK)
         else Where(x.waits, u))
    ensures call == M.TakeResumed ==> M.Return(x, t, call).Some? && Where(x.waits, t) == Resumed(M.Return(x, t, call).value)
  {
    match call
    case Take(_) => SuspendMoves(x.waits, t, x.flag, M.Priorities(x, prio, t, call), u);
    case TakeResumed => RerunMoves(x.waits, t, u);
    case Release =>
      if x.waits.waiting != [] {
        ResumeFirstMoves(x.waits, u);
      }
    case Expire => ExpireMoves(x.waits, t, u);
  }

  // --------------------------------------------------------------- every run

  /** A resumed thread that has yet to run will be told EOK exactly if the mutex is its own, and then it is so once. */
  ghost predicate Awaited(x: M.State) {
    forall t :: t in x.waits.resumed ==>
      && (x.waits.resumed[t] == EOK <==> x.owner == Some(t))
      && (x.owner == Some(t) ==> x.hold == 1)
  }

  lemma StepIsAwaited(x: M.State, prio: map<Tid, int>, t: Tid, call: M.Call)
    requires M.Exclusive(x) && M.Enabled(x, t, call) && Awaited(x)
    ensures Awaited(M.Step(x, prio, t, call))
  {
    var x' := M.Step(x, prio, t, call);
    forall u | u in x'.waits.resumed
      ensures (x'.waits.resumed[u] == EOK <==> x'.owner == Some(u)) && (x'.owner == Some(u) ==> x'.hold == 1)
    {
      M.StepIsExclusive(x, prio, t, call);
      WaiterIsTold(x, prio, t, call, u);
      assert Where(x'.waits, u) == Resumed(x'.waits.resumed[u]);
      assert u in x.waits.resumed ==> Where(x.waits, u) == Resumed(x.waits.resumed[u]);
    }
  }

  /** What t has been told about m: how often that it took it, less how often that it gave it up. */
  ghost function Inside(s: State, ops: seq<Op>, t: Tid, m: Mid): int
    decreases |ops|
  {
    if ops == [] || ops[0].m !in s.mx then 0 else Told(s, ops[0], t, m) + Inside(Step(s, ops[0]), ops[1..], t, m)
  }

  function Told(s: State, op: Op, t: Tid, m: Mid): int
    requires op.m in s.mx
  {
    if op.t != t || op.m != m || M.Return(s.mx[m], t, op.call) != Some(EOK) then 0
    else match op.call
      case Take(_) => 1
      case TakeResumed => 1
      case Release => -1
      case Expire => 0
  }

  /** What t knows of its hold on the mutex: a hand-over that it has yet to be told of does not count. */
  function Known(x: M.State, t: Tid): int {
    if x.owner != Some(t) then 0 else if t in x.waits.resumed then x.hold - 1 else x.hold
  }

  lemma CallIsTold(x: M.State, prio: map<Tid, int>, t: Tid, call: M.Call)
    requires M.Exclusive(x) && M.Enabled(x, t, call) && Awaited(x)
    ensures
      var known := Known(M.Step(x, prio, t, call), t) - Known(x, t);
      known == if call == M.Expire || M.Return(x, t, call) != Some(EOK) then 0 else if call == M.Release then -1 else 1
  {
    M.StepIsExclusive(x, prio, t, call);
    WaiterIsTold(x, prio, t, call, t);
  }

  lemma OthersAreNotTold(x: M.State, prio: map<Tid, int>, u: Tid, call: M.Call, t: Tid)
    requires M.Exclusive(x) && M.Enabled(x, u, call) && Awaited(x) && t != u
    ensures Known(M.Step(x, prio, u, call), t) == Known(x, t)
  {
    M.StepIsExclusive(x, prio, u, call);
    WaiterIsTold(x, prio, u, call, t);
  }

  lemma StepIsTold(s: State, op: Op, t: Tid, m: Mid)
    requires Accounted(s) && Enabled(s, op) && m in s.mx && Awaited(s.mx[m])
    ensures Told(s, op, t, m) == Known(Step(s, op).mx[m], t) - Known(s.mx[m], t)
  {
    if op.m == m {
      if op.t == t {
        CallIsTold(s.mx[m], s.prio, t, op.call);
      } else {
        OthersAreNotTold(s.mx[m], s.prio, op.t, op.call, t);
      }
    }
  }

  ghost predicate AllAwaited(s: State) {
    Accounted(s) && forall m :: m in s.mx ==> Awaited(s.mx[m])
  }

  lemma StartIsAwaited(s: State)
    requires Initial(s)
    ensures AllAwaited(s)
  {
  }

  lemma StepIsAllAwaited(s: State, op: Op)
    requires AllAwaited(s) && Enabled(s, op)
    ensures AllAwaited(Step(s, op)) && Step(s, op).mx.Keys == s.mx.Keys
  {
    StepIsAccounted(s, op);
    StepIsAwaited(s.mx[op.m], s.prio, op.t, op.call);
  }

  lemma {:induction false} RunIsTold(rule: Rule, s: State, ops: seq<Op>, s': State, t: Tid, m: Mid)
    requires AllAwaited(s) && Run(rule, s, ops, s')
    ensures AllAwaited(s') && s'.mx.Keys == s.mx.Keys
    ensures m in s.mx ==> Inside(s, ops, t, m) == Known(s'.mx[m], t) - Known(s.mx[m], t)
    decreases |ops|
  {
    if ops != [] {
      StepIsAllAwaited(s, ops[0]);
      if m in s.mx {
        StepIsTold(s, ops[0], t, m);
      }
      RunIsTold(rule, Step(s, ops[0]), ops[1..], s', t, m);
    }
  }

  /** Mutual exclusion, for any number of threads and mutexes, as the codes say it: in every reachable state, whoever
      was told EOK for more takes than releases of a mutex is its owner, so two threads never were; and the owner
      holds it as often as it was told, but for a hand-over that it has yet to be told of. */
  lemma CallersExcludeEachOther(rule: Rule, s: State, ops: seq<Op>, s': State, m: Mid, t: Tid, u: Tid)
    requires Initial(s) && Run(rule, s, ops, s') && m in s.mx
    ensures m in s'.mx && Inside(s, ops, t, m) == Known(s'.mx[m], t) >= 0
    ensures Inside(s, ops, t, m) > 0 ==> s'.mx[m].owner == Some(t)
    ensures Inside(s, ops, t, m) > 0 && Inside(s, ops, u, m) > 0 ==> t == u
  {
    StartIsAwaited(s);
    RunIsTold(rule, s, ops, s', t, m);
    RunIsTold(rule, s, ops, s', u, m);
    assert M.Exclusive(s'.mx[m]) && Awaited(s'.mx[m]);
  }

  /** In every reachable state, a resumed thread is told EOK if the mutex is its own, and an error if not. */
  lemma ResumedIsTold(rule: Rule, s: State, ops: seq<Op>, s': State, op: Op)
    requires Initial(s) && Run(rule, s, ops, s') && Enabled(s', op) && op.call == M.TakeResumed
    ensures M.Return(s'.mx[op.m], op.t, op.call) == Some(EOK) <==> Step(s', op).mx[op.m].owner == Some(op.t)
    ensures M.Return(s'.mx[op.m], op.t, op.call) != None
  {
    StartIsAwaited(s);
    RunIsTold(rule, s, ops, s', op.t, op.m);
    assert Awaited(s'.mx[op.m]);
  }
}
