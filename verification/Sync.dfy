/** src/kernel/mutex.c, src/kernel/cond.c, src/kernel/task.c and src/kernel/drivers/timer.c
    as a transition system. A step is a stretch of kernel code that nothing interrupts:
    between cli and sti, or one timer callback. */
module Sync {
  import opened Options
  import opened Sched

  datatype Mutex = Mutex(locked: bool, owner: int)

  /** queues[m] is the wait queue of mutex m; behind those, queues[|locks| + c] is the wait
      queue of condition variable c. Task 0 is kmain's idle loop. */
  datatype Sys = Sys(tasks: seq<Task>, cur: nat, locks: seq<Mutex>, queues: seq<seq<nat>>)

  /** What the running task does next. Timer: it is interrupted. Continue: it goes on with
      the kernel call it is in. The others start a call, or a whole call if that is one
      uninterrupted stretch. */
  datatype Action =
    | Timer
    | Continue
    | LockMutex(m: nat)
    | UnlockMutex(m: nat)
    | Wait(c: nat, m: nat)
    | Signal(c: nat)
    | Broadcast(c: nat)
    | Sleep(ms: nat)

  // ---------------------------------------------------------------- elementary changes

  predicate WellFormed(s: Sys) {
    s.cur < |s.tasks| && |s.locks| <= |s.queues|
    && (forall q, i :: 0 <= q < |s.queues| && 0 <= i < |s.queues[q]| ==> s.queues[q][i] < |s.tasks|)
  }

  function SetCur(s: Sys, t: Task): Sys
    requires s.cur < |s.tasks|
  {
    s.(tasks := s.tasks[s.cur := t])
  }

  function Current(s: Sys): Task
    requires s.cur < |s.tasks|
  {
    s.tasks[s.cur]
  }

  function At(s: Sys, pc: Pc): Sys
    requires s.cur < |s.tasks|
  {
    SetCur(s, Current(s).(pc := pc))
  }

  /** The running task blocks at the end of queue q. */
  function Park(s: Sys, q: nat): Sys
    requires s.cur < |s.tasks| && q < |s.queues|
  {
    SetCur(s, Current(s).(state := Blocked)).(queues := s.queues[q := s.queues[q] + [s.cur]])
  }

  /** The first task of queue q, if any, becomes ready. */
  function WakeFirst(s: Sys, q: nat): (r: Sys)
    requires WellFormed(s) && q < |s.queues|
    ensures WellFormed(r) && |r.queues| == |s.queues| && |r.tasks| == |s.tasks| && r.locks == s.locks && r.cur == s.cur
  {
    if s.queues[q] == [] then s
    else
      var t := s.queues[q][0];
      s.(tasks := s.tasks[t := s.tasks[t].(state := Ready)], queues := s.queues[q := s.queues[q][1..]])
  }

  function WakeAll(s: Sys, q: nat): (r: Sys)
    requires WellFormed(s) && q < |s.queues|
    ensures WellFormed(r) && |r.queues| == |s.queues| && |r.tasks| == |s.tasks| && r.locks == s.locks && r.cur == s.cur
    decreases |s.queues[q]|
  {
    if s.queues[q] == [] then s else WakeAll(WakeFirst(s, q), q)
  }

  /** timer_callback. */
  function Callback(s: Sys): Sys
    requires s.cur < |s.tasks|
  {
    s.(tasks := Tick(s.tasks, s.cur), cur := Next(s.tasks, s.cur))
  }

  function Acquire(s: Sys, m: nat): Sys
    requires s.cur < |s.tasks| && m < |s.locks|
  {
    SetCur(s, Current(s).(pc := User, holds := Current(s).holds + {m})).(locks := s.locks[m := Mutex(true, s.cur)])
  }

  /** mutex_lock up to its return or its task_yield. */
  function TryLock(s: Sys, m: nat): Sys
    requires WellFormed(s) && m < |s.locks|
  {
    if s.locks[m].locked then Callback(Park(At(s, LockRetry(m)), m)) else Acquire(s, m)
  }

  function Unheld(s: Sys, m: nat): Sys
    requires s.cur < |s.tasks| && m < |s.locks|
  {
    SetCur(s, Current(s).(holds := Current(s).holds - {m})).(locks := s.locks[m := Mutex(false, NIL)])
  }

  /** mutex_unlock. */
  function Release(s: Sys, m: nat): Sys
    requires WellFormed(s) && m < |s.locks|
  {
    WakeFirst(Unheld(s, m), m)
  }

  function SleepTicks(ms: nat): (t: nat)
    ensures t == (if ms < 20 then 1 else ms / 10) && t > 0
  {
    if ms / 10 == 0 then 1 else ms / 10
  }

  // ---------------------------------------------------------------- steps

  /** Interrupts are off only inside mutex_lock. */
  predicate InterruptsOn(s: Sys)
    requires s.cur < |s.tasks|
  {
    !Current(s).pc.LockRetry?
  }

  /** The steps of the model: the idle task only ever gets interrupted; a mutex is released
      only by the task holding it. */
  predicate Enabled(s: Sys, a: Action)
    requires WellFormed(s)
  {
    match a
    case Timer => InterruptsOn(s)
    case Continue => Current(s).pc != User
    case LockMutex(m) => s.cur != 0 && Current(s).pc == User && m < |s.locks|
    case UnlockMutex(m) => s.cur != 0 && Current(s).pc == User && m in Current(s).holds && m < |s.locks|
    case Wait(c, m) =>
      s.cur != 0 && Current(s).pc == User && m in Current(s).holds && m < |s.locks| && |s.locks| + c < |s.queues|
    case Signal(c) => s.cur != 0 && Current(s).pc == User && |s.locks| + c < |s.queues|
    case Broadcast(c) => s.cur != 0 && Current(s).pc == User && |s.locks| + c < |s.queues|
    case Sleep(ms) => s.cur != 0 && Current(s).pc == User
  }

  predicate PcInRange(pc: Pc, n: nat) {
    (pc.LockRetry? || pc.LockCall? || pc.Parked?) ==> pc.m < n
  }

  predicate PcsInRange(s: Sys) {
    forall t :: 0 <= t < |s.tasks| ==> PcInRange(s.tasks[t].pc, |s.locks|)
  }

  function Step(s: Sys, a: Action): Sys
    requires WellFormed(s) && PcsInRange(s) && Enabled(s, a)
  {
    match a
    case Timer => Callback(s)
    case Continue => (
      match Current(s).pc
      case LockRetry(m) => TryLock(s, m)
      case LockCall(m) => TryLock(s, m)
      case Parked(m) => Callback(At(s, LockCall(m)))
      case SleepSet => SetCur(s, Current(s).(state := Sleeping, pc := SleepMarked))
      case SleepMarked => Callback(At(s, User))
    )
    case LockMutex(m) => TryLock(s, m)
    case UnlockMutex(m) => Release(s, m)
    case Wait(c, m) => Release(Park(At(s, Parked(m)), |s.locks| + c), m)
    case Signal(c) => WakeFirst(s, |s.locks| + c)
    case Broadcast(c) => WakeAll(s, |s.locks| + c)
    case Sleep(ms) => SetCur(s, Current(s).(sleepTicks := SleepTicks(ms), pc := SleepSet))
  }

  // ---------------------------------------------------------------- the invariant

  ghost predicate Queued(s: Sys, t: nat) {
    exists q :: 0 <= q < |s.queues| && t in s.queues[q]
  }

  /** At most one task is running, and the current one is not waiting for the processor. */
  ghost predicate OneRunning(s: Sys) {
    && s.cur < |s.tasks| && s.tasks[s.cur].state != Ready
    && forall t :: 0 <= t < |s.tasks| && s.tasks[t].state == Running ==> t == s.cur
  }

  ghost predicate IdleRuns(s: Sys) {
    |s.tasks| > 0 && Runnable(s.tasks[0]) && s.tasks[0].pc == User
  }

  /** No task is twice in queues, be it in one or in two. */
  ghost predicate QueuesApart(s: Sys) {
    forall q, i, q', i' ::
      (&& 0 <= q < |s.queues| && 0 <= i < |s.queues[q]| && 0 <= q' < |s.queues| && 0 <= i' < |s.queues[q']|
       && s.queues[q][i] == s.queues[q'][i']) ==> q == q' && i == i'
  }

  ghost predicate BlockedIffQueued(s: Sys) {
    forall t :: 0 <= t < |s.tasks| ==> (s.tasks[t].state == Blocked <==> Queued(s, t))
  }

  /** A task in the queue of mutex q will test that mutex again; a task in the queue of a
      condition variable is inside cond_wait. */
  ghost predicate QueuePcs(s: Sys) {
    forall q, t :: 0 <= q < |s.queues| && 0 <= t < |s.tasks| && t in s.queues[q] ==>
      if q < |s.locks| then s.tasks[t].pc == LockRetry(q) else s.tasks[t].pc.Parked? || s.tasks[t].pc.LockCall?
  }

  ghost predicate SleepersCount(s: Sys) {
    forall t :: 0 <= t < |s.tasks| ==>
      && (s.tasks[t].state == Sleeping ==> s.tasks[t].sleepTicks > 0 && (s.tasks[t].pc == User || s.tasks[t].pc == SleepMarked))
      && (s.tasks[t].pc == SleepSet ==> s.tasks[t].sleepTicks > 0)
  }

  /** A task holds a mutex exactly if the mutex is locked and names it as its owner. */
  ghost predicate OwnersAgree(s: Sys) {
    && (forall t, m :: 0 <= t < |s.tasks| && 0 <= m < |s.locks| ==>
        (m in s.tasks[t].holds <==> s.locks[m].locked && s.locks[m].owner == t))
    && (forall t, m :: 0 <= t < |s.tasks| && m in s.tasks[t].holds ==> m < |s.locks|)
    && (forall m :: 0 <= m < |s.locks| ==>
        if s.locks[m].locked then 0 <= s.locks[m].owner < |s.tasks| else s.locks[m].owner == NIL)
  }

  /** Some woken task is about to test mutex m. */
  ghost predicate Retrier(s: Sys, m: nat) {
    exists t :: 0 <= t < |s.tasks| && s.tasks[t].pc == LockRetry(m) && s.tasks[t].state != Blocked
  }

  /** An unlocked mutex with waiters is about to be tested by a woken task. */
  ghost predicate NoLostWakeup(s: Sys) {
    |s.locks| <= |s.queues| &&
    forall m :: 0 <= m < |s.locks| && !s.locks[m].locked && s.queues[m] != [] ==> Retrier(s, m)
  }

  /** The current task runs, unless it was interrupted-to-be on its way into task_yield. */
  ghost predicate CurrentRuns(s: Sys) {
    s.cur < |s.tasks| &&
    var t := s.tasks[s.cur];
    t.state == Running || (t.state == Blocked && t.pc.Parked?) || (t.state == Sleeping && t.pc == SleepMarked)
  }

  /** What holds even in the middle of a step. */
  ghost predicate Core(s: Sys) {
    && WellFormed(s) && PcsInRange(s) && OneRunning(s) && IdleRuns(s) && QueuesApart(s) && BlockedIffQueued(s)
    && QueuePcs(s) && SleepersCount(s) && OwnersAgree(s) && NoLostWakeup(s)
  }

  ghost predicate Inv(s: Sys) {
    Core(s) && CurrentRuns(s)
  }

  // ---------------------------------------------------------------- every step keeps it

  /** A callback blocks and unblocks nobody. */
  lemma CallbackStates(s: Sys)
    requires s.cur < |s.tasks| && OneRunning(s) && IdleRuns(s) && SleepersCount(s)
    ensures var r := Callback(s);
      forall t :: 0 <= t < |s.tasks| ==>
        && (r.tasks[t].state == Blocked <==> s.tasks[t].state == Blocked)
        && (r.tasks[t].state == Sleeping ==> s.tasks[t].state == Sleeping && r.tasks[t].sleepTicks > 0)
        && (s.tasks[t].state != Sleeping ==> r.tasks[t].sleepTicks == s.tasks[t].sleepTicks)
        && (Runnable(s.tasks[t]) ==> Runnable(r.tasks[t]))
        && r.tasks[t].pc == s.tasks[t].pc
  {
    hide Tick, Next, Distance;
    TickIsFair(s.tasks, s.cur, 0);
    TickEffect(s.tasks, s.cur);
  }

  lemma CallbackOthers(s: Sys)
    requires WellFormed(s) && PcsInRange(s) && OneRunning(s) && IdleRuns(s) && QueuesApart(s)
    requires QueuePcs(s) && SleepersCount(s) && OwnersAgree(s)
    ensures var r := Callback(s);
      && WellFormed(r) && PcsInRange(r) && OneRunning(r) && IdleRuns(r) && QueuesApart(r)
      && QueuePcs(r) && SleepersCount(r) && OwnersAgree(r) && CurrentRuns(r)
  {
    hide Tick, Next, Distance;
    TickIsFair(s.tasks, s.cur, 0);
    TickEffect(s.tasks, s.cur);
    CallbackStates(s);
  }

  lemma StillQueued(s: Sys, r: Sys)
    requires BlockedIffQueued(s) && r.queues == s.queues && |r.tasks| == |s.tasks|
    requires forall t :: 0 <= t < |s.tasks| ==> (r.tasks[t].state == Blocked <==> s.tasks[t].state == Blocked)
    ensures BlockedIffQueued(r)
  {
    forall t | 0 <= t < |r.tasks| ensures r.tasks[t].state == Blocked <==> Queued(r, t) {
      assert Queued(s, t) == Queued(r, t);
    }
  }

  /** The woken tasks of every mutex but m are still there. */
  lemma RetriersKept(s: Sys, r: Sys, m: int)
    requires NoLostWakeup(s) && |r.tasks| == |s.tasks| && |s.locks| == |r.locks| <= |r.queues| == |s.queues|
    requires forall t, k :: 0 <= t < |s.tasks| && k != m && s.tasks[t].pc == LockRetry(k) && s.tasks[t].state != Blocked ==>
      r.tasks[t].pc == LockRetry(k) && r.tasks[t].state != Blocked
    requires forall k :: 0 <= k < |s.locks| && k != m ==> r.locks[k] == s.locks[k] && (r.queues[k] != [] ==> s.queues[k] != [])
    ensures forall k :: 0 <= k < |r.locks| && k != m && !r.locks[k].locked && r.queues[k] != [] ==> Retrier(r, k)
  {
    forall k | 0 <= k < |r.locks| && k != m && !r.locks[k].locked && r.queues[k] != [] ensures Retrier(r, k) {
      assert Retrier(s, k);
      var t :| 0 <= t < |s.tasks| && s.tasks[t].pc == LockRetry(k) && s.tasks[t].state != Blocked;
      assert r.tasks[t].pc == LockRetry(k);
    }
  }

  lemma CallbackKeeps(s: Sys)
    requires Core(s)
    ensures Inv(Callback(s))
  {
    hide QueuesApart, BlockedIffQueued, QueuePcs, OwnersAgree, PcsInRange, SleepersCount, OneRunning, IdleRuns, CurrentRuns, Retrier, Tick, Next;
    CallbackOthers(s);
    CallbackStates(s);
    StillQueued(s, Callback(s));
    RetriersKept(s, Callback(s), -1);
  }

  /** Where a change of the running task's place is harmless. */
  ghost predicate MayMove(s: Sys, pc: Pc)
    requires s.cur < |s.tasks|
  {
    var t := Current(s);
    && PcInRange(pc, |s.locks|) && s.cur != 0 && pc != SleepSet && (t.pc.LockRetry? ==> pc == t.pc)
    && match t.state
       case Running => true
       case Blocked => t.pc.Parked? && pc.LockCall?
       case Sleeping => pc == User
       case Ready => false
  }

  /** What the running task may become without queueing or waking anybody. */
  ghost predicate MayBecome(s: Sys, t: Task)
    requires s.cur < |s.tasks|
  {
    var c := Current(s);
    && s.cur != 0 && PcInRange(t.pc, |s.locks|) && t.holds == c.holds && t.state != Ready
    && (t.state == Blocked <==> c.state == Blocked) && (c.state == Blocked ==> c.pc.Parked? && (t.pc.Parked? || t.pc.LockCall?))
    && (t.state == Sleeping ==> t.sleepTicks > 0 && (t.pc == User || t.pc == SleepMarked))
    && (t.pc == SleepSet ==> t.sleepTicks > 0)
    && (c.pc.LockRetry? ==> t.pc == c.pc)
  }

  lemma BecomeQueues(s: Sys, t: Task)
    requires WellFormed(s) && QueuesApart(s) && BlockedIffQueued(s) && QueuePcs(s) && MayBecome(s, t)
    ensures var r := SetCur(s, t);
      WellFormed(r) && QueuesApart(r) && BlockedIffQueued(r) && QueuePcs(r)
  {
    assert Queued(s, s.cur) ==> Current(s).state == Blocked;
    StillQueued(s, SetCur(s, t));
    assert QueuesApart(SetCur(s, t));
    hide QueuesApart, BlockedIffQueued, PcInRange;
  }

  lemma BecomeOthers(s: Sys, t: Task)
    requires OneRunning(s) && PcsInRange(s) && IdleRuns(s) && SleepersCount(s) && OwnersAgree(s) && MayBecome(s, t)
    ensures var r := SetCur(s, t);
      OneRunning(r) && PcsInRange(r) && IdleRuns(r) && SleepersCount(r) && OwnersAgree(r)
  {
  }

  lemma BecomeKeeps(s: Sys, t: Task)
    requires Core(s) && MayBecome(s, t)
    ensures Core(SetCur(s, t)) && Current(SetCur(s, t)) == t
  {
    hide QueuesApart, BlockedIffQueued, QueuePcs, SleepersCount, OwnersAgree, OneRunning, PcsInRange, IdleRuns, Retrier;
    BecomeQueues(s, t);
    BecomeOthers(s, t);
    RetriersKept(s, SetCur(s, t), -1);
  }

  lemma AtKeeps(s: Sys, pc: Pc)
    requires Core(s) && MayMove(s, pc)
    ensures Core(At(s, pc)) && Current(At(s, pc)).state == Current(s).state
  {
    hide QueuesApart, BlockedIffQueued, QueuePcs, OwnersAgree, PcsInRange, IdleRuns, NoLostWakeup;
    BecomeKeeps(s, Current(s).(pc := pc));
  }

  lemma ParkApart(s: Sys, q: nat)
    requires s.cur < |s.tasks| && q < |s.queues| && QueuesApart(s) && !Queued(s, s.cur)
    ensures QueuesApart(Park(s, q))
  {
    var r := Park(s, q);
    forall a, i, b, j | 0 <= a < |r.queues| && 0 <= i < |r.queues[a]| && 0 <= b < |r.queues| && 0 <= j < |r.queues[b]| &&
      r.queues[a][i] == r.queues[b][j] ensures a == b && i == j
    {
      assert i < |s.queues[a]| ==> s.queues[a][i] in s.queues[a];
      assert j < |s.queues[b]| ==> s.queues[b][j] in s.queues[b];
    }
  }

  lemma ParkQueued(s: Sys, q: nat, t: nat)
    requires s.cur < |s.tasks| && q < |s.queues|
    ensures Queued(Park(s, q), t) <==> Queued(s, t) || t == s.cur
  {
    var r := Park(s, q);
    if Queued(s, t) {
      var q' :| 0 <= q' < |s.queues| && t in s.queues[q'];
      assert t in r.queues[q'];
    }
    assert s.cur in r.queues[q];
  }

  lemma ParkBlocked(s: Sys, q: nat)
    requires s.cur < |s.tasks| && q < |s.queues| && BlockedIffQueued(s) && Current(s).state == Running
    ensures BlockedIffQueued(Park(s, q)) && !Queued(s, s.cur)
  {
    hide Queued;
    var r := Park(s, q);
    forall t | 0 <= t < |r.tasks| ensures r.tasks[t].state == Blocked <==> Queued(r, t) {
      ParkQueued(s, q, t);
    }
  }

  lemma ParkOthers(s: Sys, q: nat)
    requires WellFormed(s) && PcsInRange(s) && OneRunning(s) && IdleRuns(s) && s.cur != 0 && q < |s.queues|
    requires QueuePcs(s) && SleepersCount(s) && OwnersAgree(s)
    requires if q < |s.locks| then Current(s).pc == LockRetry(q) else Current(s).pc.Parked?
    ensures var r := Park(s, q);
      && WellFormed(r) && PcsInRange(r) && OneRunning(r) && IdleRuns(r)
      && QueuePcs(r) && SleepersCount(r) && OwnersAgree(r)
  {
  }

  lemma ParkKeeps(s: Sys, q: nat)
    requires Core(s) && s.cur != 0 && Current(s).state == Running && q < |s.queues|
    requires if q < |s.locks| then Current(s).pc == LockRetry(q) && s.locks[q].locked else Current(s).pc.Parked?
    ensures Core(Park(s, q))
  {
    hide QueuesApart, BlockedIffQueued, QueuePcs, OwnersAgree, PcsInRange, SleepersCount, OneRunning, IdleRuns, Queued, Retrier;
    ParkBlocked(s, q);
    ParkApart(s, q);
    ParkOthers(s, q);
    RetriersKept(s, Park(s, q), if q < |s.locks| then q else -1);
  }

  lemma WakeQueued(s: Sys, q: nat, t: nat)
    requires WellFormed(s) && q < |s.queues| && QueuesApart(s) && s.queues[q] != []
    ensures Queued(WakeFirst(s, q), t) <==> Queued(s, t) && t != s.queues[q][0]
  {
    var r, w := WakeFirst(s, q), s.queues[q][0];
    if Queued(s, t) && t != w {
      var q' :| 0 <= q' < |s.queues| && t in s.queues[q'];
      assert t in r.queues[q'];
    }
    if Queued(r, t) {
      var q' :| 0 <= q' < |r.queues| && t in r.queues[q'];
      var i :| 0 <= i < |r.queues[q']| && r.queues[q'][i] == t;
      assert s.queues[q'][if q' == q then i + 1 else i] == t;
      assert t != w;
    }
  }

  /** Core, but the waiters of mutex m may be forgotten. */
  ghost predicate CoreBut(s: Sys, m: int) {
    && WellFormed(s) && PcsInRange(s) && OneRunning(s) && IdleRuns(s) && QueuesApart(s) && BlockedIffQueued(s)
    && QueuePcs(s) && SleepersCount(s) && OwnersAgree(s)
    && |s.locks| <= |s.queues|
    && forall k :: 0 <= k < |s.locks| && k != m && !s.locks[k].locked && s.queues[k] != [] ==> Retrier(s, k)
  }

  lemma WakeApart(s: Sys, q: nat)
    requires WellFormed(s) && q < |s.queues| && QueuesApart(s) && s.queues[q] != []
    ensures QueuesApart(WakeFirst(s, q))
  {
    var r := WakeFirst(s, q);
    forall a, i, b, j | 0 <= a < |r.queues| && 0 <= i < |r.queues[a]| && 0 <= b < |r.queues| && 0 <= j < |r.queues[b]| &&
      r.queues[a][i] == r.queues[b][j] ensures a == b && i == j
    {
      assert s.queues[a][if a == q then i + 1 else i] == s.queues[b][if b == q then j + 1 else j];
    }
  }

  lemma WakeBlocked(s: Sys, q: nat)
    requires WellFormed(s) && q < |s.queues| && QueuesApart(s) && BlockedIffQueued(s) && s.queues[q] != []
    ensures BlockedIffQueued(WakeFirst(s, q)) && s.tasks[s.queues[q][0]].state == Blocked
  {
    var r, w := WakeFirst(s, q), s.queues[q][0];
    assert w in s.queues[q] && Queued(s, w);
    forall t | 0 <= t < |r.tasks| ensures r.tasks[t].state == Blocked <==> Queued(r, t) {
      WakeQueued(s, q, t);
    }
  }

  lemma WakeOthers(s: Sys, q: nat)
    requires WellFormed(s) && q < |s.queues| && s.queues[q] != [] && s.queues[q][0] != s.cur
    requires s.tasks[s.queues[q][0]].state == Blocked
    requires PcsInRange(s) && OneRunning(s) && IdleRuns(s) && QueuePcs(s) && SleepersCount(s) && OwnersAgree(s)
    ensures var r := WakeFirst(s, q);
      PcsInRange(r) && OneRunning(r) && IdleRuns(r) && QueuePcs(r) && SleepersCount(r) && OwnersAgree(r)
  {
    assert forall k, t :: 0 <= k < |s.queues| && t in WakeFirst(s, q).queues[k] ==> t in s.queues[k];
  }

  /** The task woken will test its mutex. */
  lemma WakeRetriers(s: Sys, q: nat, m: int)
    requires WellFormed(s) && q < |s.queues| && s.queues[q] != [] && QueuePcs(s) && (m == q || m == -1)
    requires forall k :: 0 <= k < |s.locks| && k != m && !s.locks[k].locked && s.queues[k] != [] ==> Retrier(s, k)
    ensures NoLostWakeup(WakeFirst(s, q))
  {
    var r, w := WakeFirst(s, q), s.queues[q][0];
    assert w in s.queues[q];
    forall k | 0 <= k < |r.locks| && !r.locks[k].locked && r.queues[k] != [] ensures Retrier(r, k) {
      if k == q {
        assert r.tasks[w].pc == LockRetry(k);
      } else {
        assert Retrier(s, k);
        var t :| 0 <= t < |s.tasks| && s.tasks[t].pc == LockRetry(k) && s.tasks[t].state != Blocked;
        assert r.tasks[t].pc == LockRetry(k) && r.tasks[t].state != Blocked;
      }
    }
  }

  /** Waking from the queue of a mutex makes up for whatever was forgotten there. */
  lemma WakeKeeps(s: Sys, q: nat, m: int)
    requires CoreBut(s, m) && q < |s.queues|
    requires s.queues[q] != [] ==> s.queues[q][0] != s.cur
    requires m == q || m == -1
    ensures Core(WakeFirst(s, q)) && Current(WakeFirst(s, q)) == Current(s)
  {
    hide QueuesApart, BlockedIffQueued, QueuePcs, OwnersAgree, PcsInRange, SleepersCount, OneRunning, IdleRuns, Retrier;
    if s.queues[q] != [] {
      WakeBlocked(s, q);
      WakeApart(s, q);
      WakeOthers(s, q);
      WakeRetriers(s, q, m);
    }
  }

  lemma AcquireOthers(s: Sys, m: nat)
    requires WellFormed(s) && PcsInRange(s) && OneRunning(s) && IdleRuns(s) && QueuesApart(s) && BlockedIffQueued(s)
    requires QueuePcs(s) && SleepersCount(s) && OwnersAgree(s)
    requires s.cur != 0 && m < |s.locks| && !s.locks[m].locked && Current(s).state == Running
    ensures var r := Acquire(s, m);
      && WellFormed(r) && PcsInRange(r) && OneRunning(r) && IdleRuns(r) && QueuesApart(r)
      && QueuePcs(r) && SleepersCount(r) && OwnersAgree(r)
  {
    assert !Queued(s, s.cur);
    hide BlockedIffQueued, QueuesApart;
  }

  lemma AcquireKeeps(s: Sys, m: nat)
    requires Core(s) && s.cur != 0 && m < |s.locks| && !s.locks[m].locked && Current(s).state == Running
    requires Current(s).pc.LockRetry? ==> Current(s).pc.m == m
    ensures Inv(Acquire(s, m))
  {
    hide QueuesApart, BlockedIffQueued, QueuePcs, OwnersAgree, PcsInRange, SleepersCount, OneRunning, IdleRuns, Queued, Retrier;
    var r := Acquire(s, m);
    AcquireOthers(s, m);
    StillQueued(s, r);
    RetriersKept(s, r, m);
  }

  lemma UnheldOwners(s: Sys, m: nat)
    requires OwnersAgree(s) && s.cur < |s.tasks| && m < |s.locks| && m in Current(s).holds
    ensures OwnersAgree(Unheld(s, m))
  {
  }

  lemma UnheldKeeps(s: Sys, m: nat)
    requires Core(s) && m < |s.locks| && m in Current(s).holds
    requires Current(s).pc != LockRetry(m)
    ensures CoreBut(Unheld(s, m), m)
  {
    var r := Unheld(s, m);
    StillQueued(s, r);
    RetriersKept(s, r, m);
    UnheldOwners(s, m);
    hide BlockedIffQueued, Retrier, OwnersAgree, QueuesApart;
  }

  lemma FirstIsNotCur(s: Sys, m: nat)
    requires Core(s) && m < |s.locks| && Current(s).pc != LockRetry(m)
    ensures s.queues[m] != [] ==> s.queues[m][0] != s.cur
  {
    assert s.queues[m] != [] ==> s.queues[m][0] in s.queues[m];
  }

  lemma ReleaseKeeps(s: Sys, m: nat)
    requires Core(s) && m < |s.locks| && m in Current(s).holds && Current(s).pc != LockRetry(m)
    ensures Core(Release(s, m)) && Current(Release(s, m)).state == Current(s).state && Current(Release(s, m)).pc == Current(s).pc
  {
    var r := Unheld(s, m);
    UnheldKeeps(s, m);
    FirstIsNotCur(s, m);
    hide Core, WakeFirst, CoreBut;
    WakeKeeps(r, m, m);
  }

  lemma CurNotQueued(s: Sys, q: nat)
    requires Core(s) && q < |s.queues| && s.queues[q] != [] && Current(s).state == Running
    ensures s.queues[q][0] != s.cur
  {
    assert s.queues[q][0] in s.queues[q];
    assert Queued(s, s.queues[q][0]);
  }

  lemma {:induction false} WakeAllKeeps(s: Sys, q: nat)
    requires Inv(s) && q < |s.queues| && s.cur != 0 && Current(s).state == Running
    ensures Inv(WakeAll(s, q))
    decreases |s.queues[q]|
  {
    if s.queues[q] != [] {
      CurNotQueued(s, q);
      WakeKeeps(s, q, -1);
      hide Core, WakeFirst;
      WakeAllKeeps(WakeFirst(s, q), q);
    }
  }

  lemma TryLockKeeps(s: Sys, m: nat)
    requires Core(s) && s.cur != 0 && m < |s.locks| && Current(s).state == Running
    requires Current(s).pc.LockRetry? ==> Current(s).pc.m == m
    ensures Inv(TryLock(s, m))
  {
    if s.locks[m].locked {
      AtKeeps(s, LockRetry(m));
      var r := At(s, LockRetry(m));
      assert r.locks == s.locks && |r.queues| == |s.queues| && Current(r).pc == LockRetry(m);
      hide Core, At;
      ParkKeeps(r, m);
      CallbackKeeps(Park(r, m));
    } else {
      AcquireKeeps(s, m);
    }
  }

  lemma WaitKeeps(s: Sys, q: nat, m: nat)
    requires Inv(s) && s.cur != 0 && m < |s.locks| <= q < |s.queues| && m in Current(s).holds && Current(s).pc == User
    requires Current(s).state == Running
    ensures Inv(Release(Park(At(s, Parked(m)), q), m))
  {
    AtKeeps(s, Parked(m));
    var r := At(s, Parked(m));
    assert r.locks == s.locks && r.cur == s.cur && |r.queues| == |s.queues| && Current(r).pc == Parked(m) && m in Current(r).holds;
    hide Core, At;
    ParkKeeps(r, q);
    var p := Park(r, q);
    assert p.locks == s.locks && p.cur == s.cur && Current(p).pc == Parked(m) && m in Current(p).holds && Current(p).state == Blocked;
    ReleaseKeeps(p, m);
  }

  /** Going to sleep, in either of its two stores. */
  lemma SleepKeeps(s: Sys, t: Task)
    requires Inv(s) && s.cur != 0 && Current(s).state == Running && !Current(s).pc.LockRetry?
    requires t.holds == Current(s).holds && t.sleepTicks > 0
    requires (t.state == Running && t.pc == SleepSet) || (t.state == Sleeping && t.pc == SleepMarked)
    ensures Inv(SetCur(s, t))
  {
    hide QueuesApart, BlockedIffQueued, QueuePcs, OwnersAgree, PcsInRange, IdleRuns, NoLostWakeup;
    BecomeKeeps(s, t);
  }

  /** The parts of the invariant that say the steps are well-defined. */
  lemma InvBasics(s: Sys)
    requires Inv(s)
    ensures Core(s) && WellFormed(s) && PcsInRange(s) && |s.locks| <= |s.queues| && 0 < |s.tasks|
    ensures Current(s).pc == User ==> Current(s).state == Running
  {
    assert CurrentRuns(s) && IdleRuns(s);
  }

  lemma UnlockKeeps(s: Sys, m: nat)
    requires Inv(s) && m < |s.locks| && m in Current(s).holds && Current(s).pc == User
    ensures Inv(Release(s, m))
  {
    InvBasics(s);
    ReleaseKeeps(s, m);
    hide Core, Release;
  }

  lemma SignalKeeps(s: Sys, q: nat)
    requires Inv(s) && q < |s.queues| && Current(s).state == Running
    ensures Inv(WakeFirst(s, q))
  {
    InvBasics(s);
    if s.queues[q] != [] { CurNotQueued(s, q); }
    WakeKeeps(s, q, -1);
    hide Core, WakeFirst;
  }

  lemma ContinueKeeps(s: Sys)
    requires Inv(s) && Enabled(s, Continue)
    ensures Inv(Step(s, Continue))
  {
    assert Core(s) && WellFormed(s) && PcsInRange(s) && IdleRuns(s) && CurrentRuns(s) && SleepersCount(s);
    match Current(s).pc
    case LockRetry(m) => TryLockKeeps(s, m);
    case LockCall(m) => TryLockKeeps(s, m);
    case Parked(m) =>
      AtKeeps(s, LockCall(m));
      CallbackKeeps(At(s, LockCall(m)));
    case SleepSet => SleepKeeps(s, Current(s).(state := Sleeping, pc := SleepMarked));
    case SleepMarked =>
      AtKeeps(s, User);
      CallbackKeeps(At(s, User));
  }

  /** Every step keeps the invariant. */
  lemma StepKeeps(s: Sys, a: Action)
    requires Inv(s) && Enabled(s, a)
    ensures Inv(Step(s, a))
  {
    hide Inv, Core, Callback, TryLock, Release, WakeFirst, WakeAll, Park, At;
    InvBasics(s);
    match a
    case Timer => CallbackKeeps(s);
    case Continue => ContinueKeeps(s);
    case LockMutex(m) => TryLockKeeps(s, m);
    case UnlockMutex(m) => UnlockKeeps(s, m);
    case Wait(c, m) => WaitKeeps(s, |s.locks| + c, m);
    case Signal(c) => SignalKeeps(s, |s.locks| + c);
    case Broadcast(c) => WakeAllKeeps(s, |s.locks| + c);
    case Sleep(ms) => SleepKeeps(s, Current(s).(sleepTicks := SleepTicks(ms), pc := SleepSet));
  }
}
