/** Any number of threads on any number of mutexes, over whole runs. */
module MutexRuns {
  import opened Options
  import opened Sequences
  import opened WaitQueue
  import M = Mutex

  type Mid = nat

  /** What the threads did so far: each successful take or hand-over, and each release. */
  datatype Deed = Took(t: Tid, m: Mid) | Gave(t: Tid, m: Mid)

  /** The mutexes, the priorities, and records no code depends on: the deeds so far, the mutexes each
      thread holds in the order it got them, the number of steps, when each waiter arrived, and what
      original_priority was in the mutex that each thread gave up last. */
  datatype State = State(mx: map<Mid, M.State>, prio: map<Tid, int>, deeds: seq<Deed>, held: map<Tid, seq<Mid>>,
                         steps: nat, arrived: map<Tid, nat>, last: map<Tid, int>)

  datatype Op = Op(t: Tid, m: Mid, call: M.Call)

  function Held(s: State, t: Tid): seq<Mid> {
    if t in s.held then s.held[t] else []
  }

  /** A thread inside rt_mutex_take waits for that call alone. */
  ghost predicate Enabled(s: State, op: Op) {
    && op.m in s.mx
    && M.Enabled(s.mx[op.m], op.t, op.call)
    && forall m :: m in s.mx && m != op.m ==> !s.mx[m].waits.Has(op.t)
  }

  function DeedsOf(x: M.State, op: Op): seq<Deed> {
    if op.call.Take? && M.Return(x, op.t, op.call) == Some(EOK) then [Took(op.t, op.m)]
    else if op.call.Release? && x.owner == Some(op.t) then
      if x.hold == 1 && x.waits.waiting != [] then [Gave(op.t, op.m), Took(x.waits.waiting[0], op.m)]
      else [Gave(op.t, op.m)]
    else []
  }

  function Drop(held: map<Tid, seq<Mid>>, t: Tid, m: Mid): map<Tid, seq<Mid>> {
    if t in held then held[t := Without(held[t], m)] else held
  }

  function Gain(held: map<Tid, seq<Mid>>, t: Tid, m: Mid): map<Tid, seq<Mid>> {
    held[t := (if t in held then held[t] else []) + [m]]
  }

  /** A change of owner moves the mutex from the end of one record to the end of another. */
  function Moved(held: map<Tid, seq<Mid>>, m: Mid, before: Option<Tid>, after: Option<Tid>): map<Tid, seq<Mid>> {
    if before == after then held
    else
      var rest := if before.Some? then Drop(held, before.value, m) else held;
      if after.Some? then Gain(rest, after.value, m) else rest
  }

  predicate GivesUp(s: State, op: Op) {
    op.call.Release? && op.m in s.mx && s.mx[op.m].owner == Some(op.t) && s.mx[op.m].hold == 1
  }

  function Step(s: State, op: Op): State
    requires op.m in s.mx
  {
    var x := s.mx[op.m];
    var x' := M.Step(x, s.prio, op.t, op.call);
    State(s.mx[op.m := x'], M.Priorities(x, s.prio, op.t, op.call), s.deeds + DeedsOf(x, op),
          Moved(s.held, op.m, x.owner, x'.owner), s.steps + 1,
          if op.call.Take? && M.Return(x, op.t, op.call) == None then s.arrived[op.t := s.steps] else s.arrived,
          if GivesUp(s, op) then s.last[op.t := x.original] else s.last)
  }

  ghost predicate Initial(s: State) {
    && s.deeds == []
    && s.held == map[]
    && s.arrived == map[]
    && s.last == map[]
    && forall m :: m in s.mx ==> exists flag :: s.mx[m] == M.Initial(flag)
  }

  /** op is allowed by a rule on what threads may do; a run obeys the rule at every step. */
  type Rule = (State, Op) -> bool

  ghost predicate Run(rule: Rule, s: State, ops: seq<Op>, s': State)
    decreases |ops|
  {
    if ops == [] then s == s'
    else Enabled(s, ops[0]) && rule(s, ops[0]) && Run(rule, Step(s, ops[0]), ops[1..], s')
  }

  // ------------------------------------------------- exclusion and accounting

  /** How often t took m, less how often it gave m up. */
  function Net(deeds: seq<Deed>, t: Tid, m: Mid): int {
    if deeds == [] then 0
    else
      Net(deeds[..|deeds| - 1], t, m) + Worth(deeds[|deeds| - 1], t, m)
  }

  lemma {:induction false} NetOfConcat(a: seq<Deed>, b: seq<Deed>, t: Tid, m: Mid)
    ensures Net(a + b, t, m) == Net(a, t, m) + Net(b, t, m)
  {
    if b == [] {
      assert a + b == a;
    } else {
      NetOfConcat(a, b[..|b| - 1], t, m);
      assert (a + b)[..|a + b| - 1] == a + b[..|b| - 1];
    }
  }

  /** Each mutex is free or held by one owner; a thread waits for one mutex at most; and the
      hold count of the owner is the balance of its deeds, every other balance being zero. */
  ghost predicate Accounted(s: State) {
    && (forall m :: m in s.mx ==> M.Exclusive(s.mx[m]))
    && (forall m, n, t :: m in s.mx && n in s.mx && s.mx[m].waits.Has(t) && s.mx[n].waits.Has(t) ==> m == n)
    && (forall m: Mid, t: Tid :: m in s.mx ==> Net(s.deeds, t, m) == if s.mx[m].owner == Some(t) then s.mx[m].hold else 0)
  }

  function Worth(d: Deed, t: Tid, m: Mid): int {
    if d == Took(t, m) then 1 else if d == Gave(t, m) then -1 else 0
  }

  lemma NetOfDeeds(x: M.State, op: Op, t: Tid, m: Mid)
    ensures
      var d := DeedsOf(x, op);
      Net(d, t, m) == (if |d| > 0 then Worth(d[0], t, m) else 0) + (if |d| > 1 then Worth(d[1], t, m) else 0)
  {
    var d := DeedsOf(x, op);
    if |d| == 1 {
      assert d[..0] == [];
    } else if |d| == 2 {
      assert d[..1] == [d[0]] && [d[0]][..0] == [];
      assert Net([d[0]], t, m) == Worth(d[0], t, m);
    }
  }

  lemma DeedsMatchHold(x: M.State, prio: map<Tid, int>, op: Op, t: Tid)
    requires M.Exclusive(x) && M.Enabled(x, op.t, op.call)
    ensures
      var x' := M.Step(x, prio, op.t, op.call);
      Net(DeedsOf(x, op), t, op.m) ==
        (if x'.owner == Some(t) then x'.hold else 0) - (if x.owner == Some(t) then x.hold else 0)
  {
    NetOfDeeds(x, op, t, op.m);
  }

  lemma NetElsewhere(x: M.State, op: Op, t: Tid, m: Mid)
    requires m != op.m
    ensures Net(DeedsOf(x, op), t, m) == 0
  {
    NetOfDeeds(x, op, t, m);
  }

  lemma StepIsAccounted(s: State, op: Op)
    requires Accounted(s) && Enabled(s, op)
    ensures Accounted(Step(s, op))
  {
    var x := s.mx[op.m];
    M.StepIsExclusive(x, s.prio, op.t, op.call);
    forall m: Mid, t: Tid | m in s.mx
      ensures Net(Step(s, op).deeds, t, m) ==
        if Step(s, op).mx[m].owner == Some(t) then Step(s, op).mx[m].hold else 0
    {
      NetOfConcat(s.deeds, DeedsOf(x, op), t, m);
      if m == op.m {
        DeedsMatchHold(x, s.prio, op, t);
      } else {
        NetElsewhere(x, op, t, m);
      }
    }
  }

  lemma {:induction false} RunIsAccounted(rule: Rule, s: State, ops: seq<Op>, s': State)
    requires Accounted(s) && Run(rule, s, ops, s')
    ensures Accounted(s')
    decreases |ops|
  {
    if ops != [] {
      StepIsAccounted(s, ops[0]);
      RunIsAccounted(rule, Step(s, ops[0]), ops[1..], s');
    }
  }

  /** Mutual exclusion and accounting, in every reachable state. */
  lemma MutualExclusion(rule: Rule, s: State, ops: seq<Op>, s': State, m: Mid, t: Tid)
    requires Initial(s) && Run(rule, s, ops, s') && m in s'.mx
    ensures M.Exclusive(s'.mx[m])
    ensures Net(s'.deeds, t, m) == if s'.mx[m].owner == Some(t) then s'.mx[m].hold else 0
    ensures s'.mx[m].waits.waiting != [] ==> s'.mx[m].owner.Some?
  {
    RunIsAccounted(rule, s, ops, s');
  }

  // ------------------------------------------------------- priority restoration

  ghost predicate HeldIsRight(s: State, t: Tid) {
    && Distinct(Held(s, t))
    && forall m :: m in Held(s, t) <==> m in s.mx && s.mx[m].owner == Some(t)
  }

  /** What a change of owner does to the record of t. */
  lemma MovedRecord(held: map<Tid, seq<Mid>>, m: Mid, before: Option<Tid>, after: Option<Tid>, t: Tid)
    ensures
      var (h, held') := (if t in held then held[t] else [], Moved(held, m, before, after));
      (if t in held' then held'[t] else []) ==
        if before == after then h
        else if before == Some(t) then Without(h, m)
        else if after == Some(t) then h + [m]
        else h
  {
  }

  /** Only the owner of the mutex of the call changes. */
  lemma OnlyThisOwnerMoves(s: State, op: Op, t: Tid, m: Mid)
    requires op.m in s.mx
    ensures m in Step(s, op).mx <==> m in s.mx
    ensures m in s.mx && m != op.m ==> Step(s, op).mx[m] == s.mx[m]
    ensures
      var (x, x') := (s.mx[op.m], Step(s, op).mx[op.m]);
      Held(Step(s, op), t) ==
        if x.owner == x'.owner then Held(s, t)
        else if x.owner == Some(t) then Without(Held(s, t), op.m)
        else if x'.owner == Some(t) then Held(s, t) + [op.m]
        else Held(s, t)
  {
    MovedRecord(s.held, op.m, s.mx[op.m].owner, Step(s, op).mx[op.m].owner, t);
  }

  lemma StepMovesHeld(s: State, op: Op, t: Tid)
    requires op.m in s.mx && HeldIsRight(s, t)
    ensures HeldIsRight(Step(s, op), t)
  {
    var h, h' := Held(s, t), Held(Step(s, op), t);
    OnlyThisOwnerMoves(s, op, t, op.m);
    WithoutIsSubsequence(h, op.m);
    forall m ensures m in h' <==> m in Step(s, op).mx && Step(s, op).mx[m].owner == Some(t) {
      OnlyThisOwnerMoves(s, op, t, m);
    }
  }

  /** A thread without a mutex is where the mutex it gave up last put it, or else where it began. */
  ghost predicate Settled(s: State, base: map<Tid, int>, t: Tid) {
    Held(s, t) == [] ==> Prio(s.prio, t) == if t in s.last then s.last[t] else Prio(base, t)
  }

  ghost predicate Settling(s: State, base: map<Tid, int>) {
    && Accounted(s)
    && forall t :: HeldIsRight(s, t) && Settled(s, base, t)
  }

  lemma OwnerHolds(s: State, base: map<Tid, int>, m: Mid)
    requires Settling(s, base) && m in s.mx && s.mx[m].owner.Some?
    ensures m in Held(s, s.mx[m].owner.value)
  {
    assert HeldIsRight(s, s.mx[m].owner.value);
  }

  /** Only a loan to the owner, or its giving up, changes a priority. */
  lemma OthersKeepPriority(s: State, op: Op, t: Tid)
    requires Enabled(s, op) && M.Exclusive(s.mx[op.m]) && s.mx[op.m].owner != Some(t)
    ensures Prio(Step(s, op).prio, t) == Prio(s.prio, t)
    ensures t in Step(s, op).last <==> t in s.last
    ensures t in s.last ==> Step(s, op).last[t] == s.last[t]
  {
  }

  /** Giving a mutex up puts the owner at what original_priority is there, whatever else it holds. */
  lemma OwnerStaysOrIsRestored(s: State, op: Op)
    requires Enabled(s, op) && M.Exclusive(s.mx[op.m]) && s.mx[op.m].owner.Some?
    ensures
      var (t, s') := (s.mx[op.m].owner.value, Step(s, op));
      if GivesUp(s, op) then t == op.t && s'.mx[op.m].owner != Some(t) && Prio(s'.prio, t) == s.mx[op.m].original
      else s'.mx[op.m].owner == Some(t)
  {
  }

  lemma StepIsSettled(s: State, base: map<Tid, int>, op: Op, t: Tid)
    requires Settling(s, base) && Enabled(s, op)
    ensures Settled(Step(s, op), base, t)
  {
    var x := s.mx[op.m];
    assert M.Exclusive(x) && HeldIsRight(s, t) && Settled(s, base, t);
    OnlyThisOwnerMoves(s, op, t, op.m);
    if x.owner == Some(t) {
      OwnerHolds(s, base, op.m);
      OwnerStaysOrIsRestored(s, op);
    } else {
      OthersKeepPriority(s, op, t);
    }
  }

  lemma StepKeepsSettling(s: State, base: map<Tid, int>, op: Op)
    requires Settling(s, base) && Enabled(s, op)
    ensures Settling(Step(s, op), base)
  {
    StepIsAccounted(s, op);
    forall t ensures HeldIsRight(Step(s, op), t) && Settled(Step(s, op), base, t) {
      assert HeldIsRight(s, t);
      StepMovesHeld(s, op, t);
      StepIsSettled(s, base, op, t);
    }
  }

  lemma {:induction false} RunKeepsSettling(rule: Rule, s: State, base: map<Tid, int>, ops: seq<Op>, s': State)
    requires Settling(s, base) && Run(rule, s, ops, s')
    ensures Settling(s', base)
    decreases |ops|
  {
    if ops != [] {
      StepKeepsSettling(s, base, ops[0]);
      RunKeepsSettling(rule, Step(s, ops[0]), base, ops[1..], s');
    }
  }

  lemma FirstIsIn(held: seq<Mid>)
    requires held != []
    ensures exists m :: m in held
  {
    assert held[0] in held;
  }

  lemma EmptyHanded(s: State, t: Tid)
    requires HeldIsRight(s, t) && forall m :: m in s.mx ==> s.mx[m].owner != Some(t)
    ensures Held(s, t) == []
  {
    if Held(s, t) != [] {
      FirstIsIn(Held(s, t));
    }
  }

  /** Exactly when a priority is restored.  In every reachable state, under any rule or none, a thread that
      holds no mutex is at its base priority if and only if it never gave one up, or the one it gave up last had
      its base priority for original_priority; and that is what it is at. */
  lemma PriorityIsRestoredExactly(rule: Rule, s: State, ops: seq<Op>, s': State, t: Tid)
    requires Initial(s) && Run(rule, s, ops, s')
    requires forall m :: m in s'.mx ==> s'.mx[m].owner != Some(t)
    ensures Prio(s'.prio, t) == Prio(s.prio, t) <==> (t in s'.last ==> s'.last[t] == Prio(s.prio, t))
    ensures Prio(s'.prio, t) == if t in s'.last then s'.last[t] else Prio(s.prio, t)
  {
    StartIsInherited(s);
    RunKeepsSettling(rule, s, s.prio, ops, s');
    assert HeldIsRight(s', t) && Settled(s', s.prio, t);
    EmptyHanded(s', t);
  }

  /** What original_priority is: the priority its owner had when it got the mutex, loans included. */
  lemma OriginalIsPriorityThen(s: State, op: Op)
    requires Enabled(s, op) && M.Exclusive(s.mx[op.m]) && Step(s, op).mx[op.m].owner.Some?
    ensures
      var (x, x') := (s.mx[op.m], Step(s, op).mx[op.m]);
      x'.original == if x'.owner == x.owner then x.original else Prio(s.prio, x'.owner.value)
  {
  }

  // --------------------------------------------- rules under which it always is

  /** A thread may give up the first mutex it got only as the last one. */
  predicate FirstInLastOut(s: State, op: Op) {
    GivesUp(s, op) ==> |Held(s, op.t)| <= 1 || op.m != Held(s, op.t)[0]
  }

  /** The usual discipline: mutexes are given up in the reverse of the order they were got in. */
  predicate LastInFirstOut(s: State, op: Op) {
    GivesUp(s, op) ==> Held(s, op.t) != [] && op.m == Held(s, op.t)[|Held(s, op.t)| - 1]
  }

  /** The mutex that t got first, or else the one it gave up last, remembers the base priority of t. */
  ghost predicate Restorable(s: State, base: map<Tid, int>, t: Tid) {
    if Held(s, t) == [] then t in s.last ==> s.last[t] == Prio(base, t)
    else Held(s, t)[0] in s.mx && s.mx[Held(s, t)[0]].original == Prio(base, t)
  }

  ghost predicate Inherited(s: State, base: map<Tid, int>) {
    && Settling(s, base)
    && forall t :: Restorable(s, base, t)
  }

  lemma {:induction false} WithoutKeepsFirst(q: seq<Tid>, t: Tid)
    requires q != [] && q[0] != t
    ensures Without(q, t) != [] && Without(q, t)[0] == q[0]
  {
  }

  /** Without a change of owner, a loan to the owner is all that can happen. */
  lemma LoanIsRestorable(s: State, base: map<Tid, int>, op: Op, t: Tid)
    requires Inherited(s, base) && Enabled(s, op)
    requires Step(s, op).mx[op.m].owner == s.mx[op.m].owner
    ensures Restorable(Step(s, op), base, t)
  {
    var x := s.mx[op.m];
    assert HeldIsRight(s, t) && Restorable(s, base, t);
    if x.owner.Some? {
      OwnerHolds(s, base, op.m);
    }
    assert !GivesUp(s, op) by {
      assert M.Exclusive(x);
    }
  }

  /** The thread that gives the mutex up. */
  lemma GiverIsRestorable(s: State, base: map<Tid, int>, op: Op)
    requires Inherited(s, base) && Enabled(s, op) && FirstInLastOut(s, op) && GivesUp(s, op)
    ensures Restorable(Step(s, op), base, op.t)
  {
    var x := s.mx[op.m];
    var h := Held(s, op.t);
    assert M.Exclusive(x) && HeldIsRight(s, op.t) && Restorable(s, base, op.t);
    OwnerHolds(s, base, op.m);
    assert Held(Step(s, op), op.t) == Without(h, op.m) by {
      assert Step(s, op).mx[op.m].owner != Some(op.t);
    }
    if |h| == 1 {
      assert h == [op.m];
      assert Without(h, op.m) == [];
    } else {
      WithoutKeepsFirst(h, op.m);
    }
  }

  /** A thread that gets the mutex, by taking it or by a hand-over; and any thread not concerned. */
  lemma OthersAreRestorable(s: State, base: map<Tid, int>, op: Op, t: Tid)
    requires Inherited(s, base) && Enabled(s, op)
    requires Step(s, op).mx[op.m].owner != s.mx[op.m].owner && s.mx[op.m].owner != Some(t)
    ensures Restorable(Step(s, op), base, t)
  {
    var x := s.mx[op.m];
    assert M.Exclusive(x) && HeldIsRight(s, t) && Restorable(s, base, t) && Settled(s, base, t);
    assert op.m !in Held(s, t);
    if Step(s, op).mx[op.m].owner == Some(t) {
      assert Held(Step(s, op), t) == Held(s, t) + [op.m];
    }
  }

  lemma StepIsRestorable(s: State, base: map<Tid, int>, op: Op, t: Tid)
    requires Inherited(s, base) && Enabled(s, op) && FirstInLastOut(s, op)
    ensures Restorable(Step(s, op), base, t)
  {
    var x := s.mx[op.m];
    assert M.Exclusive(x);
    if Step(s, op).mx[op.m].owner == x.owner {
      LoanIsRestorable(s, base, op, t);
    } else if x.owner == Some(t) {
      GiverIsRestorable(s, base, op);
    } else {
      OthersAreRestorable(s, base, op, t);
    }
  }

  lemma StepInherits(s: State, base: map<Tid, int>, op: Op)
    requires Inherited(s, base) && Enabled(s, op) && FirstInLastOut(s, op)
    ensures Inherited(Step(s, op), base)
  {
    StepKeepsSettling(s, base, op);
    forall t ensures Restorable(Step(s, op), base, t) {
      StepIsRestorable(s, base, op, t);
    }
  }

  lemma {:induction false} RunInherits(s: State, base: map<Tid, int>, ops: seq<Op>, s': State)
    requires Inherited(s, base) && Run(FirstInLastOut, s, ops, s')
    ensures Inherited(s', base)
    decreases |ops|
  {
    if ops != [] {
      StepInherits(s, base, ops[0]);
      RunInherits(Step(s, ops[0]), base, ops[1..], s');
    }
  }

  lemma LastWasAtBase(s: State, base: map<Tid, int>, t: Tid)
    requires Inherited(s, base) && forall m :: m in s.mx ==> s.mx[m].owner != Some(t)
    ensures t in s.last ==> s.last[t] == Prio(base, t)
  {
    assert HeldIsRight(s, t) && Restorable(s, base, t);
    EmptyHanded(s, t);
  }

  lemma StartIsInherited(s: State)
    requires Initial(s)
    ensures Inherited(s, s.prio)
  {
  }

  /** Priority restoration: in every reachable state, a thread that holds no mutex is at its base
      priority, whatever was lent to it while it ran or waited, and however it got its mutexes. */
  lemma PriorityIsRestored(s: State, ops: seq<Op>, s': State, t: Tid)
    requires Initial(s) && Run(FirstInLastOut, s, ops, s')
    requires forall m :: m in s'.mx ==> s'.mx[m].owner != Some(t)
    ensures Prio(s'.prio, t) == Prio(s.prio, t)
  {
    StartIsInherited(s);
    RunInherits(s, s.prio, ops, s');
    LastWasAtBase(s', s.prio, t);
    PriorityIsRestoredExactly(FirstInLastOut, s, ops, s', t);
  }

  lemma {:induction false} LifoIsFirstInLastOut(s: State, base: map<Tid, int>, ops: seq<Op>, s': State)
    requires Inherited(s, base) && Run(LastInFirstOut, s, ops, s')
    ensures Run(FirstInLastOut, s, ops, s')
    decreases |ops|
  {
    if ops != [] {
      assert HeldIsRight(s, ops[0].t);
      StepInherits(s, base, ops[0]);
      LifoIsFirstInLastOut(Step(s, ops[0]), base, ops[1..], s');
    }
  }

  lemma PriorityIsRestoredUnderLifo(s: State, ops: seq<Op>, s': State, t: Tid)
    requires Initial(s) && Run(LastInFirstOut, s, ops, s')
    requires forall m :: m in s'.mx ==> s'.mx[m].owner != Some(t)
    ensures Prio(s'.prio, t) == Prio(s.prio, t)
  {
    StartIsInherited(s);
    LifoIsFirstInLastOut(s, s.prio, ops, s');
    PriorityIsRestored(s, ops, s', t);
  }

  // ------------------------------------------------- a run in which it is not

  lemma StepChangesOneMutex(s: State, op: Op, x': M.State, prio': map<Tid, int>)
    requires op.m in s.mx && M.Step(s.mx[op.m], s.prio, op.t, op.call) == x'
    requires M.Priorities(s.mx[op.m], s.prio, op.t, op.call) == prio'
    ensures Step(s, op).mx == s.mx[op.m := x'] && Step(s, op).prio == prio'
  {
  }

  lemma RunOneMore(rule: Rule, s: State, op: Op, ops: seq<Op>, s': State)
    requires Enabled(s, op) && rule(s, op) && Run(rule, Step(s, op), ops, s')
    ensures Run(rule, s, [op] + ops, s')
  {
    assert ([op] + ops)[1..] == ops;
  }

  predicate Anything(s: State, op: Op) {
    true
  }

  const FREE: M.State := M.Initial(PRIO)

  const TAKEN: M.State := FREE.(value := 0, owner := Some(1), original := 20, hold := 1)

  /** Thread 1, at priority 20, has mutex 0 and is lent priority 5 by thread 2, which waits for it. */
  predicate Lent(s: State) {
    s.mx == map[0 := TAKEN.(waits := Waits([2], map[])), 1 := FREE] && s.prio == map[1 := 5, 2 := 5]
  }

  const FIRST: Op := Op(1, 0, M.Take(-1))
  const SECOND: Op := Op(2, 0, M.Take(-1))

  lemma PriorityIsLent(s: State)
    requires s.mx == map[0 := FREE, 1 := FREE] && s.prio == map[1 := 20, 2 := 5]
    ensures Enabled(s, FIRST) && Enabled(Step(s, FIRST), SECOND) && Lent(Step(Step(s, FIRST), SECOND))
  {
    StepChangesOneMutex(s, FIRST, TAKEN, s.prio);
    assert [][..0] + [2 as Tid] + [][0..] == [2];
    StepChangesOneMutex(Step(s, FIRST), SECOND, TAKEN.(waits := Waits([2], map[])), map[1 := 5, 2 := 5]);
  }

  lemma PriorityIsKept(s: State) returns (ops: seq<Op>, s': State)
    requires Lent(s)
    ensures Run(Anything, s, ops, s')
    ensures forall m :: m in s'.mx ==> s'.mx[m].owner != Some(1)
    ensures 1 in s'.last && s'.last[1] == 5
  {
    var c, d, e := Op(1, 1, M.Take(-1)), Op(1, 0, M.Release), Op(1, 1, M.Release);
    var s1 := Step(s, c);
    StepChangesOneMutex(s, c, TAKEN.(original := 5), s.prio);
    var s2 := Step(s1, d);
    StepChangesOneMutex(s1, d, TAKEN.(owner := Some(2), original := 5, waits := Waits([], map[2 := EOK])), s.prio[1 := 20]);
    s' := Step(s2, e);
    StepChangesOneMutex(s2, e, FREE, s.prio);
    RunOneMore(Anything, s2, e, [], s');
    RunOneMore(Anything, s1, d, [e], s');
    RunOneMore(Anything, s, c, [d] + [e], s');
    ops := [c] + ([d] + [e]);
  }

  /** The discipline cannot be dropped: a thread at priority 20 that gets mutex 0, is lent priority
      5, gets mutex 1, and gives up 0 before 1, ends without a mutex and at priority 5. */
  lemma RestorationNeedsTheDiscipline(s: State) returns (ops: seq<Op>, s': State)
    requires Initial(s) && s.mx == map[0 := M.Initial(PRIO), 1 := M.Initial(PRIO)] && s.prio == map[1 := 20, 2 := 5]
    ensures Run(Anything, s, ops, s')
    ensures forall m :: m in s'.mx ==> s'.mx[m].owner != Some(1)
    ensures Prio(s'.prio, 1) == 5 && Prio(s.prio, 1) == 20
  {
    PriorityIsLent(s);
    ops, s' := PriorityIsKept(Step(Step(s, FIRST), SECOND));
    RunOneMore(Anything, Step(s, FIRST), SECOND, ops, s');
    ops := [SECOND] + ops;
    RunOneMore(Anything, s, FIRST, ops, s');
    ops := [FIRST] + ops;
    PriorityIsRestoredExactly(Anything, s, ops, s', 1);
  }

  // --------------------------------------------------------- bounded inversion

  /** a goes before b: it is more urgent, or as urgent and was there first. */
  ghost predicate Before(prio: map<Tid, int>, arrived: map<Tid, nat>, a: Tid, b: Tid) {
    && a in arrived && b in arrived
    && (Prio(prio, a) < Prio(prio, b) || (Prio(prio, a) == Prio(prio, b) && arrived[a] < arrived[b]))
  }

  ghost predicate InOrder(q: seq<Tid>, prio: map<Tid, int>, arrived: map<Tid, nat>) {
    forall i, j :: 0 <= i < j < |q| ==> Before(prio, arrived, q[i], q[j])
  }

  /** t stands behind the threads in front of k and before the others. */
  lemma InsertedInOrder(q: seq<Tid>, k: nat, prio: map<Tid, int>, arrived: map<Tid, nat>, t: Tid, i: nat, j: nat)
    requires InOrder(q, prio, arrived) && k <= |q| && i < j <= |q| && t in arrived
    requires forall n {:trigger q[n]} :: 0 <= n < k ==> Before(prio, arrived, q[n], t)
    requires forall n {:trigger q[n]} :: k <= n < |q| ==> Before(prio, arrived, t, q[n])
    ensures Before(prio, arrived, InsertAt(q, k, t)[i], InsertAt(q, k, t)[j])
  {
    var a, b := if i < k then i else i - 1, if j < k then j else j - 1;
    assert i != k ==> InsertAt(q, k, t)[i] == q[a];
    assert j != k ==> InsertAt(q, k, t)[j] == q[b];
  }

  lemma EnqueueInOrder(q: seq<Tid>, prio: map<Tid, int>, arrived: map<Tid, nat>, t: Tid, now: nat)
    requires InOrder(q, prio, arrived) && t !in q
    requires forall u :: u in q ==> u in arrived && arrived[u] < now
    ensures InOrder(Enqueue(q, t, PRIO, prio), prio, arrived[t := now])
  {
    var prios, arrived' := Prios(q, prio), arrived[t := now];
    var k, q' := Slot(prios, Prio(prio, t)), Enqueue(q, t, PRIO, prio);
    assert InOrder(q, prio, arrived') && Sorted(prios) by {
      forall i, j | 0 <= i < j < |q| ensures Before(prio, arrived', q[i], q[j]) && prios[i] <= prios[j] {
        assert Before(prio, arrived, q[i], q[j]);
      }
    }
    SlotKeepsSorted(prios, Prio(prio, t));
    forall n | 0 <= n < |q| ensures if n < k then Before(prio, arrived', q[n], t) else Before(prio, arrived', t, q[n]) {
      assert q[n] in q;
      assert n >= k ==> prios[n] > Prio(prio, t);
    }
    forall i, j | 0 <= i < j < |q'| ensures Before(prio, arrived', q'[i], q'[j]) {
      InsertedInOrder(q, k, prio, arrived', t, i, j);
    }
  }

  lemma RemoveInOrder(q: seq<Tid>, k: nat, prio: map<Tid, int>, arrived: map<Tid, nat>)
    requires InOrder(q, prio, arrived) && k < |q|
    ensures InOrder(RemoveAt(q, k), prio, arrived)
  {
    var q' := RemoveAt(q, k);
    forall i, j | 0 <= i < j < |q'| ensures Before(prio, arrived, q'[i], q'[j]) {
      assert Before(prio, arrived, q[if i < k then i else i + 1], q[if j < k then j else j + 1]);
    }
  }

  lemma SameOrder(q: seq<Tid>, prio: map<Tid, int>, prio': map<Tid, int>, arrived: map<Tid, nat>)
    requires InOrder(q, prio, arrived) && forall t :: t in q ==> Prio(prio', t) == Prio(prio, t)
    ensures InOrder(q, prio', arrived)
  {
    forall i, j | 0 <= i < j < |q| ensures Before(prio', arrived, q[i], q[j]) {
      assert Before(prio, arrived, q[i], q[j]);
    }
  }

  /** The owner is at least as urgent as everyone in the queue. */
  ghost predicate Leads(owner: Option<Tid>, q: seq<Tid>, prio: map<Tid, int>) {
    owner.Some? ==> forall t :: t in q ==> Prio(prio, owner.value) <= Prio(prio, t)
  }

  /** The only mutex there is, queued by priority: its queue is in order, and its owner leads it. */
  ghost predicate Bounded(s: State, m: Mid) {
    && s.mx.Keys == {m}
    && s.mx[m].flag == PRIO
    && (forall t :: t in s.arrived ==> s.arrived[t] < s.steps)
    && (forall t :: t in s.mx[m].waits.waiting ==> t in s.arrived)
    && InOrder(s.mx[m].waits.waiting, s.prio, s.arrived)
    && Leads(s.mx[m].owner, s.mx[m].waits.waiting, s.prio)
  }

  /** The call changes no priority of a thread in the queue. */
  lemma WaitersKeepPriority(s: State, op: Op, t: Tid)
    requires op.m in s.mx && M.Exclusive(s.mx[op.m]) && Enabled(s, op) && t in s.mx[op.m].waits.waiting
    ensures Prio(Step(s, op).prio, t) == Prio(s.prio, t)
  {
  }

  lemma QueueKeepsOrder(s: State, op: Op)
    requires op.m in s.mx && M.Exclusive(s.mx[op.m]) && Enabled(s, op)
    requires InOrder(s.mx[op.m].waits.waiting, s.prio, s.arrived)
    ensures
      var q := s.mx[op.m].waits.waiting;
      && InOrder(q, Step(s, op).prio, s.arrived)
      && forall t :: t in q ==> Prio(Step(s, op).prio, t) == Prio(s.prio, t)
  {
    var q := s.mx[op.m].waits.waiting;
    forall t | t in q ensures Prio(Step(s, op).prio, t) == Prio(s.prio, t) {
      WaitersKeepPriority(s, op, t);
    }
    SameOrder(q, s.prio, Step(s, op).prio, s.arrived);
  }

  /** A thread that starts to wait is queued by priority, and lends its own to the owner. */
  lemma SuspendQueues(s: State, op: Op)
    requires op.m in s.mx && M.Exclusive(s.mx[op.m]) && s.mx[op.m].flag == PRIO && Enabled(s, op)
    requires op.call.Take? && M.Return(s.mx[op.m], op.t, op.call) == None
    ensures
      var (x, x', prio) := (s.mx[op.m], Step(s, op).mx[op.m], Step(s, op).prio);
      && x'.waits.waiting == Enqueue(x.waits.waiting, op.t, PRIO, prio)
      && x'.flag == PRIO && x'.owner == x.owner && x.owner.Some?
      && Prio(prio, x.owner.value) <= Prio(prio, op.t) && Prio(prio, x.owner.value) <= Prio(s.prio, x.owner.value)
  {
  }

  lemma SuspendIsBounded(s: State, op: Op)
    requires op.m in s.mx && M.Exclusive(s.mx[op.m]) && Bounded(s, op.m) && Enabled(s, op)
    requires op.call.Take? && M.Return(s.mx[op.m], op.t, op.call) == None
    ensures Bounded(Step(s, op), op.m)
  {
    var q, s' := s.mx[op.m].waits.waiting, Step(s, op);
    SuspendQueues(s, op);
    QueueKeepsOrder(s, op);
    assert op.t !in q;
    var q' := Enqueue(q, op.t, PRIO, s'.prio);
    EnqueueInOrder(q, s'.prio, s.arrived, op.t, s.steps);
    EnqueueAdds(q, op.t, PRIO, s'.prio);
    assert Leads(s'.mx[op.m].owner, q', s'.prio);
  }

  /** A queue of any kind: a hand-over keeps the owner in the lead exactly if the first waiter is at least as
      urgent as all the others.  Nothing is lent again to the new owner. */
  lemma HandOverKeepsTheLead(s: State, op: Op)
    requires Enabled(s, op) && M.Exclusive(s.mx[op.m]) && GivesUp(s, op) && s.mx[op.m].waits.waiting != []
    ensures
      var (q, s') := (s.mx[op.m].waits.waiting, Step(s, op));
      && s'.mx[op.m].owner == Some(q[0]) && s'.mx[op.m].waits.waiting == q[1..]
      && (Leads(s'.mx[op.m].owner, q[1..], s'.prio) <==> forall t :: t in q[1..] ==> Prio(s.prio, q[0]) <= Prio(s.prio, t))
  {
    var q := s.mx[op.m].waits.waiting;
    forall t | t in q ensures Prio(Step(s, op).prio, t) == Prio(s.prio, t) {
      WaitersKeepPriority(s, op, t);
    }
    assert q == [q[0]] + q[1..];
  }

  lemma FirstIsMostUrgent(q: seq<Tid>, prio: map<Tid, int>, arrived: map<Tid, nat>)
    requires InOrder(q, prio, arrived) && q != []
    ensures forall t :: t in q[1..] ==> Prio(prio, q[0]) <= Prio(prio, t)
  {
    forall t | t in q[1..] ensures Prio(prio, q[0]) <= Prio(prio, t) {
      var j :| 0 <= j < |q[1..]| && q[1..][j] == t;
      assert Before(prio, arrived, q[0], q[j + 1]);
    }
  }

  lemma ReleaseIsBounded(s: State, op: Op)
    requires op.m in s.mx && M.Exclusive(s.mx[op.m]) && Bounded(s, op.m) && Enabled(s, op)
    requires op.call.Release?
    ensures Bounded(Step(s, op), op.m)
  {
    var q := s.mx[op.m].waits.waiting;
    QueueKeepsOrder(s, op);
    if GivesUp(s, op) && q != [] {
      HandOverKeepsTheLead(s, op);
      FirstIsMostUrgent(q, s.prio, s.arrived);
      RemoveInOrder(q, 0, Step(s, op).prio, s.arrived);
      assert RemoveAt(q, 0) == q[1..];
    }
  }

  lemma OthersAreBounded(s: State, op: Op)
    requires op.m in s.mx && M.Exclusive(s.mx[op.m]) && Bounded(s, op.m) && Enabled(s, op)
    requires op.call.Take? ==> M.Return(s.mx[op.m], op.t, op.call) != None
    requires !op.call.Release?
    ensures Bounded(Step(s, op), op.m)
  {
    var q := s.mx[op.m].waits.waiting;
    if op.call.Expire? {
      var k :| 0 <= k < |q| && q[k] == op.t;
      WithoutIsRemoveAt(q, k);
      RemoveInOrder(q, k, s.prio, s.arrived);
    }
  }

  lemma {:induction false} RunIsBounded(rule: Rule, s: State, m: Mid, ops: seq<Op>, s': State)
    requires Accounted(s) && Bounded(s, m) && Run(rule, s, ops, s')
    ensures Bounded(s', m)
    decreases |ops|
  {
    if ops != [] {
      var op := ops[0];
      assert op.m == m && M.Exclusive(s.mx[m]);
      if op.call.Take? && M.Return(s.mx[m], op.t, op.call) == None {
        SuspendIsBounded(s, op);
      } else if op.call.Release? {
        ReleaseIsBounded(s, op);
      } else {
        OthersAreBounded(s, op);
      }
      StepIsAccounted(s, op);
      RunIsBounded(rule, Step(s, op), m, ops[1..], s');
    }
  }

  /** Bounded inversion, in every reachable state, right after a hand-over too. */
  lemma InversionIsBounded(rule: Rule, s: State, m: Mid, ops: seq<Op>, s': State)
    requires Initial(s) && s.mx == map[m := M.Initial(PRIO)] && Run(rule, s, ops, s')
    ensures s'.mx.Keys == {m}
    ensures InOrder(s'.mx[m].waits.waiting, s'.prio, s'.arrived)
    ensures Leads(s'.mx[m].owner, s'.mx[m].waits.waiting, s'.prio)
    ensures s'.mx[m].waits.waiting != [] ==> s'.mx[m].owner.Some?
  {
    RunIsBounded(rule, s, m, ops, s');
    RunIsAccounted(rule, s, ops, s');
    assert M.Exclusive(s'.mx[m]);
  }

  /** With FIFO order, thread 3, at priority 20, and thread 2, at priority 5, wait for the mutex of thread 1. */
  predicate WaitingInOrder(s: State) {
    s.mx == map[0 := TAKEN.(original := 5, flag := FIFO, waits := Waits([3, 2], map[]))] &&
    s.prio == map[1 := 5, 2 := 5, 3 := 20]
  }

  lemma TwoWaitInOrder(s: State)
    requires s.mx == map[0 := M.Initial(FIFO)] && s.prio == map[1 := 5, 2 := 5, 3 := 20]
    ensures
      var (a, b, c) := (FIRST, Op(3, 0, M.Take(-1)), SECOND);
      && Enabled(s, a) && Enabled(Step(s, a), b) && Enabled(Step(Step(s, a), b), c)
      && WaitingInOrder(Step(Step(Step(s, a), b), c))
  {
    var a, b, c := FIRST, Op(3, 0, M.Take(-1)), SECOND;
    var taken := TAKEN.(original := 5, flag := FIFO);
    var s1 := Step(s, a);
    StepChangesOneMutex(s, a, taken, s.prio);
    var s2 := Step(s1, b);
    StepChangesOneMutex(s1, b, taken.(waits := Waits([3], map[])), s.prio);
    StepChangesOneMutex(s2, c, taken.(waits := Waits([3, 2], map[])), s.prio);
  }

  /** So with FIFO order there is a run in which a thread of priority 20 gets the mutex before one of priority 5
      that waits for it, and goes on holding it at that priority. */
  lemma FifoHandOverMayInvert(s: State) returns (ops: seq<Op>, s': State)
    requires Initial(s) && s.mx == map[0 := M.Initial(FIFO)] && s.prio == map[1 := 5, 2 := 5, 3 := 20]
    ensures Run(Anything, s, ops, s')
    ensures 0 in s'.mx && s'.mx[0].owner == Some(3) && s'.mx[0].waits.waiting == [2]
    ensures !Leads(s'.mx[0].owner, s'.mx[0].waits.waiting, s'.prio)
  {
    var a, b, c, d := FIRST, Op(3, 0, M.Take(-1)), SECOND, Op(1, 0, M.Release);
    TwoWaitInOrder(s);
    var s1 := Step(s, a);
    var s2 := Step(s1, b);
    var s3 := Step(s2, c);
    s' := Step(s3, d);
    HandOverInverts(s3);
    RunOneMore(Anything, s3, d, [], s');
    RunOneMore(Anything, s2, c, [d], s');
    RunOneMore(Anything, s1, b, [c] + [d], s');
    RunOneMore(Anything, s, a, [b] + ([c] + [d]), s');
    ops := [a] + ([b] + ([c] + [d]));
  }

  lemma HandOverInverts(s: State)
    requires WaitingInOrder(s)
    ensures
      var (op, s') := (Op(1, 0, M.Release), Step(s, Op(1, 0, M.Release)));
      && Enabled(s, op) && 0 in s'.mx
      && s'.mx[0].owner == Some(3) && s'.mx[0].waits.waiting == [2]
      && !Leads(s'.mx[0].owner, s'.mx[0].waits.waiting, s'.prio)
  {
    var op, q := Op(1, 0, M.Release), [3, 2];
    HandOverKeepsTheLead(s, op);
    assert s.mx[0].waits.waiting == q && q[1..] == [2] && 2 in q[1..];
  }
}
