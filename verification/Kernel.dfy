/** The task list, the mutexes and the condition variables as src/kernel/task.c, mutex.c and
    cond.c keep them: records linked by pointers, all wait queues sharing the one wait_next
    field of a task. Pointers are indices into the list of task records, NIL is -1. Each
    method is one uninterrupted stretch of code and does one step of Sync. */
module Kernel {
  import opened Options
  import opened Sched
  import opened Sync
  import opened Waiting

  /** task_t, without stack and page directory. */
  datatype TaskRec = TaskRec(state: TaskState, sleepTicks: nat, waitNext: int, next: int)

  /** mutex_t. */
  datatype MutexRec = MutexRec(locked: bool, owner: int, waiters: int)

  // ---------------------------------------------------------------- what the records mean

  /** Who comes behind place i of a queue. */
  function After(q: seq<nat>, i: nat): int {
    if i + 1 < |q| then q[i + 1] else NIL
  }

  /** The wait queue q starts at head and is linked by wait_next. */
  ghost predicate Chain(ts: seq<TaskRec>, head: int, q: seq<nat>) {
    && head == (if q == [] then NIL else q[0])
    && forall i :: 0 <= i < |q| ==> q[i] < |ts| && ts[q[i]].waitNext == After(q, i)
  }

  function Head(ms: seq<MutexRec>, cs: seq<int>, q: nat): int
    requires q < |ms| + |cs|
  {
    if q < |ms| then ms[q].waiters else cs[q - |ms|]
  }

  ghost predicate Chains(ts: seq<TaskRec>, ms: seq<MutexRec>, cs: seq<int>, queues: seq<seq<nat>>) {
    && |queues| == |ms| + |cs|
    && forall q :: 0 <= q < |queues| ==> Chain(ts, Head(ms, cs, q), queues[q])
  }

  ghost predicate TasksMatch(ts: seq<TaskRec>, tasks: seq<Task>) {
    && |ts| == |tasks|
    && forall t :: 0 <= t < |ts| ==> ts[t].state == tasks[t].state && ts[t].sleepTicks == tasks[t].sleepTicks
  }

  /** The list of all tasks is linked by next, in the order of their creation. */
  ghost predicate Listed(ts: seq<TaskRec>) {
    forall t :: 0 <= t < |ts| ==> ts[t].next == (if t + 1 < |ts| then t + 1 else NIL)
  }

  ghost predicate LocksMatch(ms: seq<MutexRec>, locks: seq<Mutex>) {
    && |ms| == |locks|
    && forall m :: 0 <= m < |ms| ==> ms[m].locked == locks[m].locked && ms[m].owner == locks[m].owner
  }

  // ---------------------------------------------------------------- linking

  /** Only the links of cur and of the last task of q differ. */
  ghost predicate Relinked(ts: seq<TaskRec>, us: seq<TaskRec>, q: seq<nat>, cur: nat) {
    && |us| == |ts|
    && forall t :: 0 <= t < |ts| ==>
      && us[t] == ts[t].(waitNext := us[t].waitNext)
      && (t != cur && (q == [] || t != q[|q| - 1]) ==> us[t] == ts[t])
  }

  /** Appending to one queue leaves the chains of the others. */
  lemma OthersStay(ts: seq<TaskRec>, us: seq<TaskRec>, queues: seq<seq<nat>>, q: nat, cur: nat, head: int, k: nat, s: Sys)
    requires q < |queues| && k < |queues| && k != q && s.queues == queues && s.cur == cur
    requires Relinked(ts, us, queues[q], cur) && Chain(ts, head, queues[k])
    requires QueuesApart(s) && !Queued(s, cur)
    ensures Chain(us, head, queues[k])
  {
    forall i | 0 <= i < |queues[k]| ensures us[queues[k][i]] == ts[queues[k][i]] {
      assert queues[k][i] in queues[k];
      assert queues[q] != [] ==> queues[q][|queues[q]| - 1] != queues[k][i];
    }
  }

  ghost predicate Parkable(s: Sys) {
    QueuesApart(s) && !Queued(s, s.cur)
  }

  /** The running task went to the end of queue q. */
  lemma ParkLinks(ts: seq<TaskRec>, us: seq<TaskRec>, ms: seq<MutexRec>, ms': seq<MutexRec>, cs: seq<int>, cs': seq<int>,
                  s: Sys, q: nat, h: int)
    requires Chains(ts, ms, cs, s.queues) && q < |s.queues| && Parkable(s)
    requires Relinked(ts, us, s.queues[q], s.cur) && Chain(us, h, s.queues[q] + [s.cur])
    requires |ms'| == |ms| && |cs'| == |cs|
    requires forall k :: 0 <= k < |s.queues| ==> Head(ms', cs', k) == if k == q then h else Head(ms, cs, k)
    ensures Chains(us, ms', cs', s.queues[q := s.queues[q] + [s.cur]])
  {
    var queues := s.queues[q := s.queues[q] + [s.cur]];
    forall k | 0 <= k < |queues| ensures Chain(us, Head(ms', cs', k), queues[k]) {
      if k != q {
        OthersStay(ts, us, s.queues, q, s.cur, Head(ms, cs, k), k, s);
      }
    }
  }

  lemma ChainOnly(ts: seq<TaskRec>, us: seq<TaskRec>, head: int, q: seq<nat>)
    requires Chain(ts, head, q) && |us| == |ts|
    requires forall t :: 0 <= t < |ts| ==> us[t].waitNext == ts[t].waitNext
    ensures Chain(us, head, q)
  {
  }

  /** Waking the first task of a queue is one step along its chain. */
  lemma ChainTail(ts: seq<TaskRec>, head: int, q: seq<nat>)
    requires Chain(ts, head, q) && q != []
    ensures head == q[0] < |ts| && Chain(ts, ts[head].waitNext, q[1..])
  {
    var r := q[1..];
    forall i | 0 <= i < |r| ensures r[i] < |ts| && ts[r[i]].waitNext == After(r, i) {
      assert ts[q[i + 1]].waitNext == After(q, i + 1);
    }
    assert ts[q[0]].waitNext == After(q, 0);
  }

  /** The first task left queue q. */
  lemma WakeLinks(ts: seq<TaskRec>, us: seq<TaskRec>, ms: seq<MutexRec>, ms': seq<MutexRec>, cs: seq<int>, cs': seq<int>,
                  queues: seq<seq<nat>>, q: nat)
    requires Chains(ts, ms, cs, queues) && q < |queues| && queues[q] != []
    requires |us| == |ts| && forall t :: 0 <= t < |ts| ==> us[t].waitNext == ts[t].waitNext
    requires |ms'| == |ms| && |cs'| == |cs| && queues[q][0] < |ts|
    requires forall k :: 0 <= k < |queues| ==>
      Head(ms', cs', k) == if k == q then ts[queues[q][0]].waitNext else Head(ms, cs, k)
    ensures Chains(us, ms', cs', queues[q := queues[q][1..]])
  {
    var rest := queues[q := queues[q][1..]];
    forall k | 0 <= k < |rest| ensures Chain(us, Head(ms', cs', k), rest[k]) {
      if k == q {
        ChainTail(ts, Head(ms, cs, q), queues[q]);
      }
      ChainOnly(ts, us, Head(ms', cs', k), rest[k]);
    }
  }

  lemma ChainAt(ts: seq<TaskRec>, ms: seq<MutexRec>, cs: seq<int>, s: Sys, q: nat)
    requires Chains(ts, ms, cs, s.queues) && q < |s.queues| && s.cur < |ts| && Parkable(s)
    ensures |s.queues| == |ms| + |cs| && Chain(ts, Head(ms, cs, q), s.queues[q])
    ensures s.cur !in s.queues[q]
    ensures forall i, j :: 0 <= i < |s.queues[q]| && 0 <= j < |s.queues[q]| && s.queues[q][i] == s.queues[q][j] ==> i == j
  {
  }

  /** Who calls mutex_lock, and where it leads. */
  lemma LockFacts(s: Sys, a: Action, m: nat)
    requires Inv(s) && Enabled(s, a)
    requires a == LockMutex(m) || (a == Continue && (Current(s).pc == LockRetry(m) || Current(s).pc == LockCall(m)))
    ensures m < |s.locks| <= |s.queues| && PcsInRange(s) && Step(s, a) == TryLock(s, m)
    ensures Current(s).state == Running && Parkable(At(s, LockRetry(m)))
  {
    assert CurrentRuns(s) && !Queued(s, s.cur);
    assert Queued(At(s, LockRetry(m)), s.cur) == Queued(s, s.cur);
  }

  /** The head pointer of a queue says whether somebody waits, and who is first. */
  lemma FirstInLine(ts: seq<TaskRec>, ms: seq<MutexRec>, cs: seq<int>, s: Sys, q: nat)
    requires Chains(ts, ms, cs, s.queues) && q < |s.queues|
    ensures |s.queues| == |ms| + |cs|
    ensures Head(ms, cs, q) == if s.queues[q] == [] then NIL else s.queues[q][0]
    ensures s.queues[q] != [] ==> s.queues[q][0] < |ts|
  {
    assert Chain(ts, Head(ms, cs, q), s.queues[q]);
  }

  lemma NobodyToWake(s: Sys, q: nat)
    requires WellFormed(s) && q < |s.queues| && s.queues[q] == []
    ensures WakeFirst(s, q) == s
  {
  }

  lemma WakeShortens(s: Sys, q: nat)
    requires WellFormed(s) && q < |s.queues| && s.queues[q] != []
    ensures var r := WakeFirst(s, q);
      && |r.queues| == |s.queues| && |r.locks| == |s.locks|
      && |r.queues[q]| < |s.queues[q]| && WakeAll(r, q) == WakeAll(s, q)
  {
  }

  lemma SignalSteps(s: Sys, c: nat)
    requires Inv(s) && (Enabled(s, Signal(c)) || Enabled(s, Broadcast(c)))
    ensures |s.locks| + c < |s.queues| && Enabled(s, Signal(c)) && Enabled(s, Broadcast(c))
    ensures Step(s, Signal(c)) == WakeFirst(s, |s.locks| + c)
    ensures Step(s, Broadcast(c)) == WakeAll(s, |s.locks| + c)
  {
    hide Inv, WakeFirst, WakeAll;
  }

  lemma WaitFacts(s: Sys, c: nat, m: nat)
    requires Inv(s) && Enabled(s, Wait(c, m))
    ensures m < |s.locks| && |s.locks| + c < |s.queues|
    ensures Current(s).state == Running && Parkable(At(s, Parked(m)))
    ensures Step(s, Wait(c, m)) == Release(Park(At(s, Parked(m)), |s.locks| + c), m)
  {
    assert CurrentRuns(s) && !Queued(s, s.cur);
    assert Queued(At(s, Parked(m)), s.cur) == Queued(s, s.cur);
  }

  lemma HeadsOnly(ts: seq<TaskRec>, ms: seq<MutexRec>, ms': seq<MutexRec>, cs: seq<int>, queues: seq<seq<nat>>)
    requires Chains(ts, ms, cs, queues) && |ms'| == |ms|
    requires forall m :: 0 <= m < |ms| ==> ms'[m].waiters == ms[m].waiters
    ensures Chains(ts, ms', cs, queues)
  {
    forall q | 0 <= q < |queues| ensures Chain(ts, Head(ms', cs, q), queues[q]) {
      assert Chain(ts, Head(ms, cs, q), queues[q]);
    }
  }

  lemma ChainsOnly(ts: seq<TaskRec>, us: seq<TaskRec>, ms: seq<MutexRec>, cs: seq<int>, queues: seq<seq<nat>>)
    requires Chains(ts, ms, cs, queues) && |us| == |ts|
    requires forall t :: 0 <= t < |ts| ==> us[t].waitNext == ts[t].waitNext
    ensures Chains(us, ms, cs, queues)
  {
    forall q | 0 <= q < |queues| ensures Chain(us, Head(ms, cs, q), queues[q]) {
      ChainOnly(ts, us, Head(ms, cs, q), queues[q]);
    }
  }

  lemma Lengths(ts: seq<TaskRec>, tasks: seq<Task>, ms: seq<MutexRec>, locks: seq<Mutex>)
    requires TasksMatch(ts, tasks) && LocksMatch(ms, locks)
    ensures |ts| == |tasks| && |ms| == |locks|
  {
  }

  /** Marked blocked and linked in, the records of the tasks match again. */
  lemma ParkMatches(before: seq<TaskRec>, ts: seq<TaskRec>, us: seq<TaskRec>, s: Sys, q: nat)
    requires TasksMatch(before, s.tasks) && Listed(before) && s.cur < |before| && q < |s.queues|
    requires ts == before[s.cur := before[s.cur].(state := Blocked)] && Relinked(ts, us, s.queues[q], s.cur)
    ensures TasksMatch(us, Park(s, q).tasks) && Listed(us)
  {
    forall t | 0 <= t < |us| ensures us[t].state == ts[t].state && us[t].sleepTicks == ts[t].sleepTicks && us[t].next == ts[t].next {
      assert us[t] == ts[t].(waitNext := us[t].waitNext);
    }
  }

  class System {
    var tasks: seq<TaskRec>
    var runningTask: int
    var readyQueue: int
    var mutexes: seq<MutexRec>
    var conds: seq<int>
    var tick: nat
    ghost var sys: Sys

    ghost predicate Valid()
      reads this
    {
      && Inv(sys) && Linked()
    }

    /** The records agree with sys, also in the middle of a step. */
    ghost predicate Linked()
      reads this
    {
      && WellFormed(sys) && runningTask == sys.cur && readyQueue == 0
      && TasksMatch(tasks, sys.tasks) && Listed(tasks) && LocksMatch(mutexes, sys.locks)
      && Chains(tasks, mutexes, conds, sys.queues)
    }

    // -------------------------------------------------------------- the timer callback

    /** tasks_update_sleep_ticks. */
    method TasksUpdateSleepTicks()
      requires Linked() && |tasks| > 0
      modifies this
      ensures Linked() && sys == old(sys).(tasks := WakeSleepers(old(sys).tasks)) && tick == old(tick)
    {
      ghost var before := tasks;
      var tmp := readyQueue;
      ghost var k := 0;
      while tmp != NIL
        invariant 0 <= k <= |tasks| == |before| == |sys.tasks| && tmp == (if k < |tasks| then k else NIL)
        invariant forall t :: k <= t < |tasks| ==> tasks[t] == before[t]
        invariant forall t :: 0 <= t < k ==>
          && tasks[t].waitNext == before[t].waitNext && tasks[t].next == before[t].next
          && tasks[t].state == Wakened(sys.tasks[t]).state && tasks[t].sleepTicks == Wakened(sys.tasks[t]).sleepTicks
        invariant forall t :: 0 <= t < |tasks| ==> tasks[t].next == before[t].next
        invariant sys == old(sys) && runningTask == old(runningTask) && readyQueue == old(readyQueue)
        invariant mutexes == old(mutexes) && conds == old(conds) && tick == old(tick)
        decreases |tasks| - k
      {
        if tasks[tmp].state == Sleeping && tasks[tmp].sleepTicks > 0 {
          tasks := tasks[tmp := tasks[tmp].(sleepTicks := tasks[tmp].sleepTicks - 1)];
          if tasks[tmp].sleepTicks == 0 {
            tasks := tasks[tmp := tasks[tmp].(state := Ready)];
          }
        }
        tmp := tasks[tmp].next;
        k := k + 1;
      }
      ChainsOnly(before, tasks, mutexes, conds, sys.queues);
      sys := sys.(tasks := WakeSleepers(sys.tasks));
    }

    /** schedule. */
    method Schedule()
      requires Linked() && |tasks| > 0
      modifies this
      ensures Linked() && tick == old(tick)
      ensures var ts := Preempted(old(sys).tasks, old(sys).cur);
        var p := Pick(ts, old(sys).cur, 1);
        sys == old(sys).(tasks := Dispatched(ts, p), cur := p)
    {
      hide Chains, LocksMatch, Pick;
      ghost var before := tasks;
      if tasks[runningTask].state == Running {
        tasks := tasks[runningTask := tasks[runningTask].(state := Ready)];
      }
      ghost var ts := Preempted(sys.tasks, sys.cur);
      SearchRunnable(ts);
      tasks := tasks[runningTask := tasks[runningTask].(state := Running)];
      ChainsOnly(before, tasks, mutexes, conds, sys.queues);
      sys := sys.(tasks := Dispatched(ts, runningTask), cur := runningTask);
    }

    /** The do-while loop of schedule. */
    method SearchRunnable(ghost ts: seq<Task>)
      requires TasksMatch(tasks, ts) && Listed(tasks) && 0 <= runningTask < |tasks| && readyQueue == 0
      modifies this`runningTask
      ensures runningTask == Pick(ts, old(runningTask), 1)
    {
      var startTask := runningTask;
      ghost var d := 0;
      var again := true;
      while again
        invariant 0 <= d <= |tasks| && (again ==> d < |tasks|)
        invariant 0 <= runningTask < |tasks| && runningTask == Behind(startTask, d, |tasks|)
        invariant again ==> Pick(ts, startTask, d + 1) == Pick(ts, startTask, 1)
        invariant !again ==> runningTask == Pick(ts, startTask, 1)
        decreases |tasks| - d + (if again then 1 else 0)
      {
        runningTask := tasks[runningTask].next;
        if runningTask == NIL { runningTask := readyQueue; }
        d := d + 1;
        again := !(tasks[runningTask].state == Ready || tasks[runningTask].state == Running) && runningTask != startTask;
      }
    }

    /** timer_callback; also what task_yield, an int $0x20, amounts to. */
    method TimerCallback()
      requires Linked() && |tasks| > 0
      modifies this
      ensures Linked() && sys == Callback(old(sys)) && tick == old(tick) + 1
    {
      tick := tick + 1;
      TasksUpdateSleepTicks();
      Schedule();
    }

    // -------------------------------------------------------------- wait queues

    /** The walk to the end of a wait queue, in mutex_lock and in cond_wait: head is what
        the queue's head pointer holds, h what it holds afterwards. */
    method Append(head: int, ghost q: seq<nat>) returns (h: int)
      requires 0 <= runningTask < |tasks| && Chain(tasks, head, q) && runningTask !in q
      requires forall i, j :: 0 <= i < |q| && 0 <= j < |q| && q[i] == q[j] ==> i == j
      modifies this`tasks
      ensures Relinked(old(tasks), tasks, q, runningTask) && Chain(tasks, h, q + [runningTask])
    {
      tasks := tasks[runningTask := tasks[runningTask].(waitNext := NIL)];
      ghost var us := tasks;
      if head == NIL {
        h := runningTask;
      } else {
        var tmp := head;
        ghost var k := 0;
        while tasks[tmp].waitNext != NIL
          invariant 0 <= k < |q| && tmp == q[k] && tasks == us
          decreases |q| - k
        {
          tmp := tasks[tmp].waitNext;
          k := k + 1;
        }
        tasks := tasks[tmp := tasks[tmp].(waitNext := runningTask)];
        h := head;
      }
    }

    /** Block the running task at the end of the queue of mutex m. */
    method BlockOnMutex(m: nat)
      requires Linked() && Parkable(sys) && m < |mutexes| && Current(sys).state == Running
      modifies this
      ensures Linked() && sys == Park(old(sys), m) && tick == old(tick)
    {
      hide Parkable, Chains, Chain, Listed, TasksMatch, Relinked;
      Lengths(tasks, sys.tasks, mutexes, sys.locks);
      tasks := tasks[runningTask := tasks[runningTask].(state := Blocked)];
      ChainsOnly(old(tasks), tasks, mutexes, conds, sys.queues);
      ghost var ts, ms := tasks, mutexes;
      ChainAt(ts, ms, conds, sys, m);
      var h := Append(mutexes[m].waiters, sys.queues[m]);
      mutexes := mutexes[m := mutexes[m].(waiters := h)];
      ParkLinks(ts, tasks, ms, mutexes, conds, conds, sys, m, h);
      ParkMatches(old(tasks), ts, tasks, sys, m);
      sys := Park(sys, m);
    }

    /** Block the running task at the end of the queue of condition variable c. */
    method BlockOnCond(c: nat)
      requires Linked() && Parkable(sys) && |sys.locks| + c < |sys.queues| && Current(sys).state == Running
      modifies this
      ensures Linked() && sys == Park(old(sys), |old(sys).locks| + c) && sys.locks == old(sys).locks && tick == old(tick)
    {
      hide Parkable, Chains, Chain, LocksMatch, Listed, TasksMatch, Relinked;
      Lengths(tasks, sys.tasks, mutexes, sys.locks);
      tasks := tasks[runningTask := tasks[runningTask].(state := Blocked)];
      ChainsOnly(old(tasks), tasks, mutexes, conds, sys.queues);
      ghost var ts, cs := tasks, conds;
      ChainAt(ts, mutexes, cs, sys, |mutexes| + c);
      var h := Append(conds[c], sys.queues[|mutexes| + c]);
      conds := conds[c := h];
      ParkLinks(ts, tasks, mutexes, mutexes, cs, conds, sys, |mutexes| + c, h);
      ParkMatches(old(tasks), ts, tasks, sys, |mutexes| + c);
      sys := Park(sys, |mutexes| + c);
    }

    /** mutex_lock, from its entry or from behind its task_yield, to its return or to its
        next task_yield. */
    method MutexLock(m: nat, ghost a: Action)
      requires Valid() && Enabled(sys, a)
      requires a == LockMutex(m) || (a == Continue && (Current(sys).pc == LockRetry(m) || Current(sys).pc == LockCall(m)))
      modifies this
      ensures Valid() && sys == Step(old(sys), a)
      ensures tick == old(tick) + (if Ticks(old(sys), a) then 1 else 0)
    {
      hide Inv, Parkable, Chains, Chain, Step, Enabled, Callback, Acquire;
      StepKeeps(sys, a);
      LockFacts(sys, a, m);
      if mutexes[m].locked {
        LockRound(m);
      } else {
        TakeMutex(m);
      }
    }

    /** One round of the loop of mutex_lock. */
    method LockRound(m: nat)
      requires Linked() && m < |mutexes| && Current(sys).state == Running && Parkable(At(sys, LockRetry(m)))
      modifies this
      ensures Linked() && sys == Callback(Park(At(old(sys), LockRetry(m)), m)) && tick == old(tick) + 1
    {
      hide Parkable, Chains, Chain, Park, Callback;
      sys := At(sys, LockRetry(m));
      BlockOnMutex(m);
      TimerCallback();
    }

    /** The end of mutex_lock. */
    method TakeMutex(m: nat)
      requires Linked() && m < |mutexes|
      modifies this
      ensures Linked() && sys == Acquire(old(sys), m) && tick == old(tick)
    {
      ghost var ms := mutexes;
      mutexes := mutexes[m := mutexes[m].(locked := true, owner := runningTask)];
      HeadsOnly(tasks, ms, mutexes, conds, sys.queues);
      hide Chains;
      sys := Acquire(sys, m);
    }

    /** mutex_unlock, on its own or inside cond_wait. */
    method MutexUnlock(m: nat)
      requires Linked() && m < |mutexes|
      modifies this
      ensures Linked() && sys == Release(old(sys), m) && tick == old(tick)
    {
      hide Chains, Chain, WakeFirst;
      ghost var ms := mutexes;
      mutexes := mutexes[m := mutexes[m].(locked := false, owner := NIL)];
      HeadsOnly(tasks, ms, mutexes, conds, sys.queues);
      sys := Unheld(sys, m);
      WakeFirstWaiter(m);
    }

    /** Unblock the first waiter of mutex m. */
    method WakeFirstWaiter(m: nat)
      requires Linked() && m < |mutexes|
      modifies this
      ensures Linked() && sys == WakeFirst(old(sys), m) && tick == old(tick)
    {
      hide Chains, Chain;
      FirstInLine(tasks, mutexes, conds, sys, m);
      ghost var ts, ms := tasks, mutexes;
      if mutexes[m].waiters != NIL {
        var waiter := mutexes[m].waiters;
        mutexes := mutexes[m := mutexes[m].(waiters := tasks[waiter].waitNext)];
        tasks := tasks[waiter := tasks[waiter].(state := Ready)];
        WakeLinks(ts, tasks, ms, mutexes, conds, conds, sys.queues, m);
      }
      sys := WakeFirst(sys, m);
    }

    /** Unlink and wake the first task waiting for condition variable c. */
    method WakeWaiter(c: nat)
      requires Linked() && |sys.locks| + c < |sys.queues| && sys.queues[|sys.locks| + c] != []
      modifies this
      ensures Linked() && sys == WakeFirst(old(sys), |old(sys).locks| + c) && tick == old(tick)
    {
      hide Chains, Chain;
      ghost var q := |sys.locks| + c;
      FirstInLine(tasks, mutexes, conds, sys, q);
      ghost var ts, cs := tasks, conds;
      var waiter := conds[c];
      conds := conds[c := tasks[waiter].waitNext];
      tasks := tasks[waiter := tasks[waiter].(state := Ready)];
      WakeLinks(ts, tasks, mutexes, mutexes, cs, conds, sys.queues, q);
      sys := WakeFirst(sys, q);
    }

    /** cond_signal. */
    method CondSignal(c: nat)
      requires Valid() && Enabled(sys, Signal(c))
      modifies this
      ensures Valid() && sys == Step(old(sys), Signal(c)) && tick == old(tick)
    {
      hide Inv, Enabled, Step, PcsInRange, WakeFirst, WakeAll;
      StepKeeps(sys, Signal(c));
      SignalSteps(sys, c);
      WakeOne(c);
    }

    method WakeOne(c: nat)
      requires Linked() && |sys.locks| + c < |sys.queues|
      modifies this
      ensures Linked() && sys == WakeFirst(old(sys), |old(sys).locks| + c) && tick == old(tick)
    {
      hide Chains, Chain, WakeFirst;
      FirstInLine(tasks, mutexes, conds, sys, |sys.locks| + c);
      if conds[c] != NIL {
        WakeWaiter(c);
      } else {
        NobodyToWake(sys, |sys.locks| + c);
      }
    }

    /** cond_broadcast. */
    method CondBroadcast(c: nat)
      requires Valid() && Enabled(sys, Broadcast(c))
      modifies this
      ensures Valid() && sys == Step(old(sys), Broadcast(c)) && tick == old(tick)
    {
      hide Inv, Enabled, Step, PcsInRange, WakeFirst, WakeAll;
      StepKeeps(sys, Broadcast(c));
      SignalSteps(sys, c);
      WakeEveryone(c);
    }

    /** The loop of cond_broadcast. */
    method WakeEveryone(c: nat)
      requires Linked() && |sys.locks| + c < |sys.queues|
      modifies this
      ensures Linked() && sys == WakeAll(old(sys), |old(sys).locks| + c) && tick == old(tick)
    {
      hide Chains, Chain, WakeFirst;
      ghost var s, q := sys, |sys.locks| + c;
      FirstInLine(tasks, mutexes, conds, sys, q);
      while conds[c] != NIL
        invariant Linked() && |sys.locks| + c == q < |sys.queues| && c < |conds|
        invariant conds[c] == NIL <==> sys.queues[q] == []
        invariant WakeAll(sys, q) == WakeAll(s, q) && tick == old(tick)
        decreases |sys.queues[q]|
      {
        WakeShortens(sys, q);
        WakeWaiter(c);
        FirstInLine(tasks, mutexes, conds, sys, q);
      }
    }

    /** cond_wait up to its task_yield: the running task is marked and queued, the mutex
        released, and interrupts are back on. */
    method CondWait(c: nat, m: nat)
      requires Valid() && Enabled(sys, Wait(c, m))
      modifies this
      ensures Valid() && sys == Step(old(sys), Wait(c, m)) && tick == old(tick)
    {
      hide Inv, Parkable, Enabled, Step, PcsInRange, Park, Release;
      StepKeeps(sys, Wait(c, m));
      WaitFacts(sys, c, m);
      WaitSegment(c, m);
    }

    method WaitSegment(c: nat, m: nat)
      requires Linked() && m < |sys.locks| && |sys.locks| + c < |sys.queues|
      requires Current(sys).state == Running && Parkable(At(sys, Parked(m)))
      modifies this
      ensures Linked() && sys == Release(Park(At(old(sys), Parked(m)), |old(sys).locks| + c), m) && tick == old(tick)
    {
      hide Parkable, Chains, Chain, Park, Release;
      sys := At(sys, Parked(m));
      BlockOnCond(c);
      MutexUnlock(m);
    }

    /** The task_yield of cond_wait; behind it comes mutex_lock. */
    method CondYield()
      requires Valid() && Current(sys).pc.Parked?
      modifies this
      ensures Valid() && sys == Step(old(sys), Continue) && tick == old(tick) + 1
    {
      hide Inv, Chains, Callback;
      StepKeeps(sys, Continue);
      InvBasics(sys);
      sys := At(sys, LockCall(Current(sys).pc.m));
      TimerCallback();
    }

    // -------------------------------------------------------------- sleep

    /** sleep up to between its two stores; interrupts are on. */
    method SleepBegin(ms: nat)
      requires Valid() && Enabled(sys, Sleep(ms))
      modifies this
      ensures Valid() && sys == Step(old(sys), Sleep(ms)) && tick == old(tick)
    {
      hide Inv, Chains;
      StepKeeps(sys, Sleep(ms));
      InvBasics(sys);
      var ticksToWait := ms / 10;
      if ticksToWait == 0 { ticksToWait := 1; }
      tasks := tasks[runningTask := tasks[runningTask].(sleepTicks := ticksToWait)];
      ChainsOnly(old(tasks), tasks, mutexes, conds, sys.queues);
      sys := Step(sys, Sleep(ms));
    }

    /** The second store of sleep. */
    method SleepMark()
      requires Valid() && Current(sys).pc == SleepSet
      modifies this
      ensures Valid() && sys == Step(old(sys), Continue) && tick == old(tick)
    {
      hide Inv, Chains;
      StepKeeps(sys, Continue);
      InvBasics(sys);
      tasks := tasks[runningTask := tasks[runningTask].(state := Sleeping)];
      ChainsOnly(old(tasks), tasks, mutexes, conds, sys.queues);
      sys := Step(sys, Continue);
    }

    /** The task_yield of sleep. */
    method SleepYield()
      requires Valid() && Current(sys).pc == SleepMarked
      modifies this
      ensures Valid() && sys == Step(old(sys), Continue) && tick == old(tick) + 1
    {
      hide Inv, Chains, Callback;
      StepKeeps(sys, Continue);
      InvBasics(sys);
      sys := At(sys, User);
      TimerCallback();
    }

    /** A timer interrupt. */
    method Interrupt()
      requires Valid() && Enabled(sys, Timer)
      modifies this
      ensures Valid() && sys == Step(old(sys), Timer) && tick == old(tick) + 1
    {
      hide Inv, Chains, Callback;
      StepKeeps(sys, Timer);
      InvBasics(sys);
      TimerCallback();
    }

    // -------------------------------------------------------------- setting up

    /** task_init, with all mutexes and condition variables initialised. */
    constructor (nMutexes: nat, nConds: nat)
      ensures Valid() && sys == Start(1, nMutexes, nConds)
    {
      tasks := [TaskRec(Running, 0, NIL, NIL)];
      runningTask, readyQueue, tick := 0, 0, 0;
      mutexes := seq(nMutexes, _ => MutexRec(false, NIL, NIL));
      conds := seq(nConds, _ => NIL);
      sys := Start(1, nMutexes, nConds);
      new;
      StartInv(1, nMutexes, nConds);
      hide Inv;
    }

    /** task_create, before interrupts are enabled: the new task goes to the end of the list
        of all tasks. Its wait_next is whatever the heap held there. */
    method TaskCreate(garbage: int)
      requires Valid() && sys == Start(|sys.tasks|, |sys.locks|, |sys.queues| - |sys.locks|)
      modifies this
      ensures Valid() && sys == Start(|old(sys).tasks| + 1, |sys.locks|, |sys.queues| - |sys.locks|)
      ensures |sys.locks| == |old(sys).locks| && |sys.queues| == |old(sys).queues|
    {
      hide Inv;
      var newTask := |tasks|;
      ghost var before := tasks;
      tasks := tasks + [TaskRec(Ready, 0, garbage, NIL)];
      var tmp := readyQueue;
      while tasks[tmp].next != NIL
        invariant 0 <= tmp < newTask && tasks == before + [TaskRec(Ready, 0, garbage, NIL)]
        decreases newTask - tmp
      {
        tmp := tasks[tmp].next;
      }
      tasks := tasks[tmp := tasks[tmp].(next := newTask)];
      sys := Start(newTask + 1, |sys.locks|, |sys.queues| - |sys.locks|);
      StartInv(newTask + 1, |sys.locks|, |sys.queues| - |sys.locks|);
    }
  }
}
