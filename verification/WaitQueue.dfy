/** What the wait lists of the kernel hold: threads, in first-come order or by priority
    (rt-thread/src/ipc.c, rt_ipc_list_suspend). */
module WaitQueue {
  import opened Sequences

  type Tid = nat

  datatype Flag = FIFO | PRIO

  /** The error codes of the IPC layer; EOK is success. */
  datatype Err = EOK | ERROR | ETIMEOUT | EFULL | EINVAL

  /** A smaller number is a more urgent priority; a thread the scheduler does not know is the least urgent. */
  function Prio(prio: map<Tid, int>, t: Tid): int {
    if t in prio then prio[t] else 255
  }

  function Prios(q: seq<Tid>, prio: map<Tid, int>): (r: seq<int>)
    ensures |r| == |q| && forall i :: 0 <= i < |q| ==> r[i] == Prio(prio, q[i])
  {
    seq(|q|, i requires 0 <= i < |q| => Prio(prio, q[i]))
  }

  /** Where a thread of priority p is queued: before the first less urgent one. */
  function Slot(prios: seq<int>, p: int): (k: nat)
    ensures k <= |prios|
    ensures forall i :: 0 <= i < k ==> prios[i] <= p
    ensures k < |prios| ==> p < prios[k]
  {
    if prios == [] || p < prios[0] then 0 else 1 + Slot(prios[1..], p)
  }

  function Enqueue(q: seq<Tid>, t: Tid, flag: Flag, prio: map<Tid, int>): (r: seq<Tid>) {
    if flag == FIFO then q + [t] else InsertAt(q, Slot(Prios(q, prio), Prio(prio, t)), t)
  }

  ghost predicate Sorted(prios: seq<int>) {
    forall i, j :: 0 <= i < j < |prios| ==> prios[i] <= prios[j]
  }

  /** A priority queue stays sorted, and the newcomer stands behind its equals. */
  lemma SlotKeepsSorted(prios: seq<int>, p: int)
    requires Sorted(prios)
    ensures Sorted(InsertAt(prios, Slot(prios, p), p))
    ensures forall i :: Slot(prios, p) <= i < |prios| ==> p < prios[i]
  {
    var k := Slot(prios, p);
    var r := InsertAt(prios, k, p);
    forall i, j | 0 <= i < j < |r| ensures r[i] <= r[j] {
      assert r[i] == if i < k then prios[i] else if i == k then p else prios[i - 1];
      assert r[j] == if j < k then prios[j] else if j == k then p else prios[j - 1];
    }
  }

  /** Where a newcomer stands: with FIFO at the end; with PRIO behind all that are as urgent or more, and in front of all
      that are less; and the others stay in their order. */
  lemma EnqueueIsFair(q: seq<Tid>, t: Tid, flag: Flag, prio: map<Tid, int>) returns (k: nat)
    requires flag == PRIO ==> Sorted(Prios(q, prio))
    ensures k <= |q| && Enqueue(q, t, flag, prio) == q[..k] + [t] + q[k..]
    ensures flag == FIFO ==> k == |q|
    ensures flag == PRIO ==> forall i :: 0 <= i < |q| ==> (i < k <==> Prio(prio, q[i]) <= Prio(prio, t))
  {
    if flag == FIFO {
      k := |q|;
    } else {
      k := Slot(Prios(q, prio), Prio(prio, t));
      SlotKeepsSorted(Prios(q, prio), Prio(prio, t));
      forall i | 0 <= i < |q| ensures i < k <==> Prio(prio, q[i]) <= Prio(prio, t) {
        assert Prios(q, prio)[i] == Prio(prio, q[i]);
      }
    }
  }

  lemma EnqueueAdds(q: seq<Tid>, t: Tid, flag: Flag, prio: map<Tid, int>)
    requires t !in q
    ensures forall u :: u in Enqueue(q, t, flag, prio) <==> u == t || u in q
    ensures Distinct(q) ==> Distinct(Enqueue(q, t, flag, prio))
  {
    if flag == PRIO {
      InsertAdds(q, Slot(Prios(q, prio), Prio(prio, t)), t);
    }
  }

  /** Taking a thread off a wait list, wherever it stands: rt_list_remove on its node. */
  function Without(q: seq<Tid>, t: Tid): (r: seq<Tid>)
    ensures t !in r && forall u :: u != t ==> (u in q <==> u in r)
    ensures t !in q ==> r == q
    ensures |r| <= |q|
  {
    if q == [] then []
    else if q[0] == t then Without(q[1..], t)
    else [q[0]] + Without(q[1..], t)
  }

  lemma {:induction false} WithoutIsSubsequence(q: seq<Tid>, t: Tid)
    requires Distinct(q)
    ensures Distinct(Without(q, t))
  {
    if q != [] {
      WithoutIsSubsequence(q[1..], t);
      assert q[0] !in q[1..];
    }
  }

  lemma {:induction false} WithoutIsRemoveAt(q: seq<Tid>, k: nat)
    requires Distinct(q) && k < |q|
    ensures Without(q, q[k]) == RemoveAt(q, k)
  {
    if k == 0 {
      assert q[0] !in q[1..];
    } else {
      WithoutIsRemoveAt(q[1..], k - 1);
      assert RemoveAt(q, k) == [q[0]] + RemoveAt(q[1..], k - 1);
    }
  }

  /** One wait list and the threads it has let go: waiting holds the suspended threads; resumed, with
      the error code they will find, those made ready that have not run since. */
  datatype Waits = Waits(waiting: seq<Tid>, resumed: map<Tid, Err>)
  {
    predicate Has(t: Tid) {
      t in waiting || t in resumed
    }

    /** A resumed thread finds the code that its waker left: success, an error, or a timeout. */
    ghost predicate Valid() {
      && Distinct(waiting)
      && (forall t :: t in waiting ==> t !in resumed)
      && (forall t :: t in resumed ==> resumed[t] == EOK || resumed[t] == ERROR || resumed[t] == ETIMEOUT)
    }

    /** rt_ipc_list_suspend */
    function Suspend(t: Tid, flag: Flag, prio: map<Tid, int>): Waits {
      this.(waiting := Enqueue(waiting, t, flag, prio))
    }

    /** rt_ipc_list_resume; the error of a thread is cleared when it is suspended. */
    function ResumeFirst(): Waits
      requires waiting != []
    {
      Waits(waiting[1..], resumed[waiting[0] := EOK])
    }

    /** rt_ipc_list_resume_all */
    function ResumeAll(): Waits {
      Waits([], resumed + (map t | t in waiting :: ERROR))
    }

    /** rt_thread_timeout in rt-thread/src/thread.c */
    function Expire(t: Tid): Waits {
      Waits(Without(waiting, t), resumed[t := ETIMEOUT])
    }

    /** The thread runs again, and looks at its error. */
    function Rerun(t: Tid): Waits {
      this.(resumed := resumed - {t})
    }

    /** The threads resumed without error that have not run since. */
    function Ready(): set<Tid> {
      set t | t in resumed && resumed[t] == EOK
    }
  }

  const NOBODY: Waits := Waits([], map[])

  // ------------------------------------------------- where a thread is, and what it will be told

  datatype Place = Away | Waiting | Resumed(code: Err)

  function Where(w: Waits, u: Tid): Place {
    if u in w.waiting then Waiting else if u in w.resumed then Resumed(w.resumed[u]) else Away
  }

  lemma SuspendMoves(w: Waits, t: Tid, flag: Flag, prio: map<Tid, int>, u: Tid)
    requires w.Valid() && !w.Has(t)
    ensures Where(w.Suspend(t, flag, prio), u) == if u == t then Waiting else Where(w, u)
  {
    EnqueueAdds(w.waiting, t, flag, prio);
  }

  lemma ResumeFirstMoves(w: Waits, u: Tid)
    requires w.Valid() && w.waiting != []
    ensures Where(w.ResumeFirst(), u) == if u == w.waiting[0] then Resumed(EOK) else Where(w, u)
  {
    assert w.waiting == [w.waiting[0]] + w.waiting[1..];
  }

  lemma WokenMoves(w: Waits, u: Tid)
    requires w.Valid()
    ensures Where(Woken(w), u) == if w.waiting != [] && u == w.waiting[0] then Resumed(EOK) else Where(w, u)
  {
    if w.waiting != [] {
      ResumeFirstMoves(w, u);
    }
  }

  lemma ResumeAllMoves(w: Waits, u: Tid)
    requires w.Valid()
    ensures Where(w.ResumeAll(), u) == if u in w.waiting then Resumed(ERROR) else Where(w, u)
  {
  }

  lemma ExpireMoves(w: Waits, t: Tid, u: Tid)
    requires w.Valid() && t in w.waiting
    ensures Where(w.Expire(t), u) == if u == t then Resumed(ETIMEOUT) else Where(w, u)
  {
  }

  lemma RerunMoves(w: Waits, t: Tid, u: Tid)
    requires w.Valid() && t in w.resumed
    ensures Where(w.Rerun(t), u) == if u == t then Away else Where(w, u)
  {
  }

  lemma SuspendIsValid(w: Waits, t: Tid, flag: Flag, prio: map<Tid, int>)
    requires w.Valid() && !w.Has(t)
    ensures w.Suspend(t, flag, prio).Valid() && w.Suspend(t, flag, prio).Ready() == w.Ready()
    ensures forall u :: w.Suspend(t, flag, prio).Has(u) <==> u == t || w.Has(u)
    ensures |w.Suspend(t, flag, prio).waiting| == |w.waiting| + 1
  {
    EnqueueAdds(w.waiting, t, flag, prio);
  }

  lemma ResumeFirstIsValid(w: Waits)
    requires w.Valid() && w.waiting != []
    ensures w.ResumeFirst().Valid() && |w.ResumeFirst().Ready()| == |w.Ready()| + 1
    ensures forall u :: w.ResumeFirst().Has(u) <==> w.Has(u)
  {
    var t := w.waiting[0];
    assert w.ResumeFirst().Ready() == w.Ready() + {t} && t !in w.Ready();
    assert w.waiting == [t] + w.waiting[1..];
  }

  lemma ResumeAllIsValid(w: Waits)
    requires w.Valid()
    ensures w.ResumeAll().Valid() && w.ResumeAll().Ready() == w.Ready()
    ensures forall u :: w.ResumeAll().Has(u) <==> w.Has(u)
  {
    assert w.ResumeAll().Ready() == w.Ready();
  }

  /** A timeout is marked as one, and takes the thread off the list; nobody else is concerned. */
  lemma ExpireIsValid(w: Waits, t: Tid)
    requires w.Valid() && t in w.waiting
    ensures w.Expire(t).Valid() && w.Expire(t).Ready() == w.Ready()
    ensures t in w.Expire(t).resumed && w.Expire(t).resumed[t] == ETIMEOUT && t !in w.Expire(t).waiting
    ensures forall u :: u in w.resumed ==> u in w.Expire(t).resumed && w.Expire(t).resumed[u] == w.resumed[u]
    ensures forall u :: u != t ==> (u in w.Expire(t).waiting <==> u in w.waiting)
    ensures forall u :: w.Expire(t).Has(u) <==> w.Has(u)
  {
    WithoutIsSubsequence(w.waiting, t);
    assert w.Expire(t).Ready() == w.Ready();
  }

  lemma RerunIsValid(w: Waits, t: Tid)
    requires w.Valid() && t in w.resumed
    ensures w.Rerun(t).Valid() && !w.Rerun(t).Has(t)
    ensures |w.Rerun(t).Ready()| == if w.resumed[t] == EOK then |w.Ready()| - 1 else |w.Ready()|
    ensures forall u :: w.Rerun(t).Has(u) <==> w.Has(u) && u != t
  {
    assert w.Rerun(t).Ready() == w.Ready() - {t};
  }

  /** What a call that leaves a message, or makes room for one, does last. */
  function Woken(w: Waits): Waits {
    if w.waiting == [] then w else w.ResumeFirst()
  }

  /** A waiting thread excludes goods it could have: there are no more goods - messages for receivers, free
      places for senders - than threads that were resumed for them and have not run since. */
  ghost predicate NoLostWakeup(w: Waits, goods: int) {
    w.Valid() && (w.waiting != [] ==> goods <= |w.Ready()|)
  }

  lemma WokenKeepsUp(w: Waits, goods: int)
    requires NoLostWakeup(w, goods)
    ensures NoLostWakeup(Woken(w), goods + 1)
    ensures forall u :: Woken(w).Has(u) <==> w.Has(u)
  {
    if w.waiting != [] {
      ResumeFirstIsValid(w);
    }
  }

  /** A thread that ran again and found nothing may leave; one that found something took it. */
  lemma RerunKeepsUp(w: Waits, goods: int, t: Tid)
    requires NoLostWakeup(w, goods) && t in w.resumed
    ensures NoLostWakeup(w.Rerun(t), if w.resumed[t] == EOK then goods - 1 else goods)
    ensures forall u :: w.Rerun(t).Has(u) <==> w.Has(u) && u != t
  {
    RerunIsValid(w, t);
  }
}
