/** The waiting time left to a blocked mailbox or queue call that is woken early
    (rt-thread/src/ipc.c, the retry loops of rt_mb_send_wait, rt_mb_recv, rt_mq_send_wait and
    rt_mq_recv).  The tick counter is a 32-bit word that wraps around; the timeout is a signed one. */
module Deadline {

  const WORD: int := 0x1_0000_0000
  const INT_LIMIT: int := 0x8000_0000

  type Int32 = x: int | -INT_LIMIT <= x < INT_LIMIT

  /** rt_tick_get at absolute time now */
  function Tick(now: nat): nat {
    now % WORD
  }

  /** The value of a 32-bit word read as a signed number */
  function Signed(word: int): Int32
    requires 0 <= word < WORD
  {
    if word < INT_LIMIT then word else word - WORD
  }

  function Max(a: int, b: int): int {
    if a > b then a else b
  }

  /** The time left after a wait, computed in 32-bit words and cut off at 0. */
  function Left(timeout: Int32, suspended: nat, woken: nat): Int32 {
    var delta := (Tick(woken) - Tick(suspended)) % WORD;
    var timeout' := Signed((timeout - delta) % WORD);
    if timeout' < 0 then 0 else timeout'
  }

  /** Two readings of the counter tell how long the wait was, except for full turns of the counter. */
  lemma TicksWrap(suspended: nat, woken: nat)
    requires suspended <= woken
    ensures (Tick(woken) - Tick(suspended)) % WORD == (woken - suspended) % WORD
  {
    var turns := woken / WORD - suspended / WORD;
    assert woken - suspended == turns * WORD + (Tick(woken) - Tick(suspended));
    TurnsDoNotCount(Tick(woken) - Tick(suspended), turns);
  }

  lemma {:induction false} TurnsDoNotCount(ticks: int, turns: nat)
    ensures (turns * WORD + ticks) % WORD == ticks % WORD
    decreases turns
  {
    if turns > 0 {
      TurnsDoNotCount(ticks, turns - 1);
      assert turns * WORD + ticks == (turns - 1) * WORD + ticks + WORD;
    }
  }

  /** Exactly when the time left is right, for any wait from any starting tick: if the wait exceeds the timeout by
      no more than 2^31 ticks, or if it takes a full turn of the counter or more and what it takes beyond full
      turns is at least the timeout and exceeds it by no more than 2^31. */
  lemma LeftIsRight(timeout: Int32, suspended: nat, woken: nat)
    requires timeout > 0 && suspended <= woken
    ensures
      var wait := woken - suspended;
      var right := Left(timeout, suspended, woken) == Max(0, timeout - wait);
      right <==> wait <= timeout + INT_LIMIT || (wait >= WORD && timeout <= wait % WORD <= timeout + INT_LIMIT)
  {
    TicksWrap(suspended, woken);
  }

  /** One call of a retry loop: first suspended at at[0], woken early at each later time and, having
      found nothing, suspended again in the same region, so at the same tick.  The loop ends when no
      time is left. */
  method Retry(timeout: Int32, at: seq<nat>) returns (left: Int32)
    requires timeout > 0 && |at| > 0
    requires forall i :: 0 <= i < |at| - 1 ==> at[i] <= at[i + 1] < at[i] + INT_LIMIT
    ensures left == Max(0, timeout + at[0] - at[|at| - 1])
  {
    left := timeout;
    var i := 0;
    while i < |at| - 1 && left != 0
      invariant 0 <= i < |at| && left >= 0
      invariant at[0] <= at[i] && left == Max(0, timeout + at[0] - at[i])
    {
      LeftIsRight(left, at[i], at[i + 1]);
      left := Left(left, at[i], at[i + 1]);
      i := i + 1;
    }
    Later(at, i);
  }

  lemma {:induction false} Later(at: seq<nat>, i: nat)
    requires i < |at| && forall k :: 0 <= k < |at| - 1 ==> at[k] <= at[k + 1]
    ensures at[i] <= at[|at| - 1]
    decreases |at| - i
  {
    if i + 1 < |at| {
      Later(at, i + 1);
    }
  }
}
