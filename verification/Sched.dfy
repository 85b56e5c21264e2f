/** src/kernel/task.c and src/kernel/drivers/timer.c on values: the task list in creation
    order, the timer callback, and how long a task can be kept waiting by it. */
module Sched {

  datatype TaskState = Running | Ready | Blocked | Sleeping

  /** Where a task is when it can be interrupted or switched away.
      User: its own code. LockRetry(m): in mutex_lock behind task_yield, interrupts off,
      about to test locked again. LockCall(m): in cond_wait behind task_yield, about to
      call mutex_lock. Parked(m): in cond_wait, the mutex released and interrupts back on,
      task_yield still to come. SleepSet: in sleep between its two stores. SleepMarked: in
      sleep, task_yield still to come. */
  datatype Pc = User | LockRetry(m: nat) | LockCall(m: nat) | Parked(m: nat) | SleepSet | SleepMarked

  /** holds: the mutexes the task is between mutex_lock and mutex_unlock of. */
  datatype Task = Task(state: TaskState, sleepTicks: nat, pc: Pc, holds: set<nat>)

  // ---------------------------------------------------------------- the timer callback

  function Wakened(t: Task): Task {
    if t.state == Sleeping && t.sleepTicks > 0 then
      t.(sleepTicks := t.sleepTicks - 1, state := if t.sleepTicks == 1 then Ready else Sleeping)
    else t
  }

  /** tasks_update_sleep_ticks. */
  function WakeSleepers(ts: seq<Task>): (r: seq<Task>)
    ensures |r| == |ts| && forall i :: 0 <= i < |ts| ==> r[i] == Wakened(ts[i])
  {
    seq(|ts|, i requires 0 <= i < |ts| => Wakened(ts[i]))
  }

  predicate Runnable(t: Task) {
    t.state == Ready || t.state == Running
  }

  /** d places behind start in the cyclic order of n tasks. */
  function Behind(start: nat, d: nat, n: nat): (p: nat)
    requires start < n && d <= n
    ensures p < n
  {
    if start + d < n then start + d else start + d - n
  }

  /** How many places t is behind cur: from 1, for the next task, to n, for cur itself. */
  function Distance(cur: nat, t: nat, n: nat): (d: nat)
    requires cur < n && t < n
    ensures 1 <= d <= n && Behind(cur, d, n) == t
  {
    if t > cur then t - cur else t + n - cur
  }

  /** The search of schedule from d places behind start on. */
  function Pick(ts: seq<Task>, start: nat, d: nat): (p: nat)
    requires start < |ts| && 1 <= d <= |ts|
    ensures p < |ts|
    decreases |ts| - d
  {
    var p := Behind(start, d, |ts|);
    if Runnable(ts[p]) || d == |ts| then p else Pick(ts, start, d + 1)
  }

  /** The task schedule() picks is the first runnable one in cyclic order. */
  lemma {:induction false} PickIsFirst(ts: seq<Task>, start: nat, d: nat, t: nat)
    requires start < |ts| && 1 <= d <= |ts| && t < |ts|
    requires Runnable(ts[t]) && d <= Distance(start, t, |ts|)
    ensures var p := Pick(ts, start, d);
      Runnable(ts[p]) && d <= Distance(start, p, |ts|) <= Distance(start, t, |ts|)
    decreases |ts| - d
  {
    var p := Behind(start, d, |ts|);
    if !Runnable(ts[p]) && d < |ts| {
      PickIsFirst(ts, start, d + 1, t);
    }
  }

  function Preempted(ts: seq<Task>, cur: nat): seq<Task>
    requires cur < |ts|
  {
    if ts[cur].state == Running then ts[cur := ts[cur].(state := Ready)] else ts
  }

  function Dispatched(ts: seq<Task>, p: nat): seq<Task>
    requires p < |ts|
  {
    ts[p := ts[p].(state := Running)]
  }

  /** timer_callback: the tasks and the running task after it. */
  function Next(ts: seq<Task>, cur: nat): (p: nat)
    requires cur < |ts|
    ensures p < |ts|
  {
    Pick(Preempted(WakeSleepers(ts), cur), cur, 1)
  }

  function Tick(ts: seq<Task>, cur: nat): (r: seq<Task>)
    requires cur < |ts|
    ensures |r| == |ts|
  {
    Dispatched(Preempted(WakeSleepers(ts), cur), Next(ts, cur))
  }

  /** No runnable task comes between cur and the one picked; sleepers that just woke
      count as runnable. */
  lemma TickIsFair(ts: seq<Task>, cur: nat, t: nat)
    requires cur < |ts| && t < |ts| && Runnable(Wakened(ts[t]))
    ensures var p := Next(ts, cur);
      Runnable(Wakened(ts[p])) && Distance(cur, p, |ts|) <= Distance(cur, t, |ts|)
  {
    PickIsFirst(Preempted(WakeSleepers(ts), cur), cur, 1, t);
  }

  /** One callback changes states and sleep counts only; it blocks and unblocks nobody, and
      exactly one task runs afterwards. */
  lemma TickEffect(ts: seq<Task>, cur: nat)
    requires cur < |ts| && Runnable(Wakened(ts[Next(ts, cur)]))
    requires forall t :: 0 <= t < |ts| && ts[t].state == Running ==> t == cur
    ensures var r, p := Tick(ts, cur), Next(ts, cur);
      && (forall t :: 0 <= t < |ts| ==> r[t].pc == ts[t].pc && r[t].holds == ts[t].holds)
      && (forall t :: 0 <= t < |ts| ==> r[t].sleepTicks == Wakened(ts[t]).sleepTicks)
      && (forall t :: 0 <= t < |ts| ==> (r[t].state == Running <==> t == p))
      && (forall t :: 0 <= t < |ts| && t != p ==>
          r[t].state == (if t == cur && ts[t].state == Running then Ready else Wakened(ts[t]).state))
  {
    hide Pick, Next;
  }
}
