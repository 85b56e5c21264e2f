/** Whole runs of the tasks: what holds after every one of them, and how many timer
    callbacks can pass before a waiting task runs. */
module Waiting {
  import opened Options
  import opened Sched
  import opened Sync

  ghost predicate LegalRun(s: Sys, run: seq<Action>)
    requires Inv(s)
    decreases |run|
  {
    run == [] || (Enabled(s, run[0]) && (StepKeeps(s, run[0]); LegalRun(Step(s, run[0]), run[1..])))
  }

  ghost function Run(s: Sys, run: seq<Action>): (r: Sys)
    requires Inv(s) && LegalRun(s, run)
    ensures Inv(r)
    decreases |run|
  {
    if run == [] then s else StepKeeps(s, run[0]); Run(Step(s, run[0]), run[1..])
  }

  // ---------------------------------------------------------------- safety

  /** kmain behind its task_create calls: task 0 runs, the others are ready to start. */
  function Start(n: nat, mutexes: nat, conds: nat): Sys {
    Sys(seq(n, i => Task(if i == 0 then Running else Ready, 0, User, {})), 0,
        seq(mutexes, _ => Mutex(false, NIL)), seq(mutexes + conds, _ => []))
  }

  lemma StartInv(n: nat, mutexes: nat, conds: nat)
    requires n > 0
    ensures Inv(Start(n, mutexes, conds))
  {
  }

  /** At most one task is between mutex_lock and mutex_unlock of m, and it is the owner. */
  ghost predicate MutualExclusion(s: Sys, m: nat) {
    m < |s.locks| &&
    forall t, u :: 0 <= t < |s.tasks| && 0 <= u < |s.tasks| && m in s.tasks[t].holds && m in s.tasks[u].holds ==>
      t == u && s.locks[m] == Mutex(true, t)
  }

  /** The place of a blocked task in the queues is unique; other tasks have none. */
  ghost predicate OnePlace(s: Sys, t: nat)
    requires t < |s.tasks|
  {
    if s.tasks[t].state == Blocked then
      exists q, i :: 0 <= q < |s.queues| && 0 <= i < |s.queues[q]| && s.queues[q][i] == t
        && forall q', i' :: 0 <= q' < |s.queues| && 0 <= i' < |s.queues[q']| && s.queues[q'][i'] == t ==> q' == q && i' == i
    else
      forall q, i :: 0 <= q < |s.queues| && 0 <= i < |s.queues[q]| ==> s.queues[q][i] != t
  }

  lemma PlaceIsUnique(s: Sys, t: nat)
    requires Inv(s) && t < |s.tasks|
    ensures OnePlace(s, t)
  {
    if s.tasks[t].state == Blocked {
      var q :| 0 <= q < |s.queues| && t in s.queues[q];
      var i :| 0 <= i < |s.queues[q]| && s.queues[q][i] == t;
    } else {
      forall q, i | 0 <= q < |s.queues| && 0 <= i < |s.queues[q]| ensures s.queues[q][i] != t {
        assert s.queues[q][i] in s.queues[q];
        assert Queued(s, s.queues[q][i]);
      }
    }
  }

  lemma InvMeans(s: Sys)
    requires Inv(s)
    ensures forall m :: 0 <= m < |s.locks| ==> MutualExclusion(s, m)
    ensures forall t :: 0 <= t < |s.tasks| ==> OnePlace(s, t)
  {
    forall t | 0 <= t < |s.tasks| ensures OnePlace(s, t) {
      PlaceIsUnique(s, t);
    }
  }

  /** After every run, however the tasks interleave. */
  lemma Safety(n: nat, mutexes: nat, conds: nat, run: seq<Action>)
    requires n > 0 && Inv(Start(n, mutexes, conds)) && LegalRun(Start(n, mutexes, conds), run)
    ensures var s := Run(Start(n, mutexes, conds), run);
      && (forall m :: 0 <= m < |s.locks| ==> MutualExclusion(s, m))
      && (forall t :: 0 <= t < |s.tasks| ==> OnePlace(s, t))
      && (forall m :: 0 <= m < |s.locks| && !s.locks[m].locked && s.queues[m] != [] ==> Retrier(s, m))
  {
    var s := Run(Start(n, mutexes, conds), run);
    InvMeans(s);
    assert NoLostWakeup(s);
  }

  // ---------------------------------------------------------------- who is woken

  lemma {:induction false} EveryoneWoken(s: Sys, q: nat)
    requires WellFormed(s) && q < |s.queues|
    ensures var r := WakeAll(s, q);
      && r.queues[q] == []
      && (forall k :: 0 <= k < |s.queues| && k != q ==> r.queues[k] == s.queues[k])
      && forall t :: 0 <= t < |s.tasks| ==>
        r.tasks[t] == if t in s.queues[q] then s.tasks[t].(state := Ready) else s.tasks[t]
    decreases |s.queues[q]|
  {
    if s.queues[q] != [] {
      EveryoneWoken(WakeFirst(s, q), q);
      assert s.queues[q] == [s.queues[q][0]] + s.queues[q][1..];
    }
  }

  /** cond_broadcast wakes everybody waiting for the condition, and nobody else. */
  lemma BroadcastWakesAll(s: Sys, c: nat)
    requires Inv(s) && Enabled(s, Broadcast(c))
    ensures var r, q := Step(s, Broadcast(c)), |s.locks| + c;
      && |r.queues| == |s.queues| && r.queues[q] == []
      && (forall k :: 0 <= k < |s.queues| && k != q ==> r.queues[k] == s.queues[k])
      && |r.tasks| == |s.tasks|
      && forall t :: 0 <= t < |s.tasks| ==>
        r.tasks[t] == if t in s.queues[q] then s.tasks[t].(state := Ready) else s.tasks[t]
    ensures Step(s, Broadcast(c)).locks == s.locks && Step(s, Broadcast(c)).cur == s.cur
  {
    hide Inv, WakeAll;
    InvBasics(s);
    EveryoneWoken(s, |s.locks| + c);
  }

  // ---------------------------------------------------------------- first come, first served

  /** The task, if any, that a step puts into queue q. */
  function Arrives(s: Sys, a: Action, q: nat): seq<nat>
    requires WellFormed(s) && PcsInRange(s) && Enabled(s, a)
  {
    match a
    case LockMutex(m) => if q == m && s.locks[m].locked then [s.cur] else []
    case Wait(c, _) => if q == |s.locks| + c then [s.cur] else []
    case Continue => (
      match Current(s).pc
      case LockRetry(m) => if q == m && s.locks[m].locked then [s.cur] else []
      case LockCall(m) => if q == m && s.locks[m].locked then [s.cur] else []
      case _ => []
    )
    case _ => []
  }

  /** The tasks of queue q that a step makes ready. */
  ghost function Woken(s: Sys, a: Action, q: nat): set<nat>
    requires WellFormed(s) && PcsInRange(s) && Enabled(s, a) && q < |s.queues|
  {
    set t | t in s.queues[q] && t < |Step(s, a).tasks| && Step(s, a).tasks[t].state == Ready
  }

  /** How many tasks at the front of queue q a step is to wake. */
  function FrontWoken(s: Sys, a: Action, q: nat): (k: nat)
    requires WellFormed(s) && PcsInRange(s) && Enabled(s, a) && q < |s.queues|
    ensures k <= |s.queues[q]|
  {
    match a
    case UnlockMutex(m) => if q == m && s.queues[q] != [] then 1 else 0
    case Wait(_, m) => if q == m && s.queues[q] != [] then 1 else 0
    case Signal(c) => if q == |s.locks| + c && s.queues[q] != [] then 1 else 0
    case Broadcast(c) => if q == |s.locks| + c then |s.queues[q]| else 0
    case _ => 0
  }

  lemma LockQueues(s: Sys, m: nat)
    requires WellFormed(s) && m < |s.locks|
    ensures var r := TryLock(s, m);
      && |r.tasks| == |s.tasks|
      && r.queues == if s.locks[m].locked then s.queues[m := s.queues[m] + [s.cur]] else s.queues
  {
  }

  /** The queues without the first task of queue q. */
  function WithoutFirst(queues: seq<seq<nat>>, q: nat): seq<seq<nat>>
    requires q < |queues|
  {
    if queues[q] == [] then queues else queues[q := queues[q][1..]]
  }

  lemma ReleaseQueues(s: Sys, m: nat)
    requires WellFormed(s) && m < |s.locks|
    ensures var r := Release(s, m);
      && |r.tasks| == |s.tasks| && r.queues == WithoutFirst(s.queues, m)
      && (s.queues[m] != [] ==> s.queues[m][0] < |r.tasks| && r.tasks[s.queues[m][0]].state == Ready)
  {
  }

  lemma WaitQueues(s: Sys, c: nat, m: nat)
    requires WellFormed(s) && PcsInRange(s) && Enabled(s, Wait(c, m))
    ensures var r, q := Step(s, Wait(c, m)), |s.locks| + c;
      && |r.tasks| == |s.tasks| && r.queues == WithoutFirst(s.queues[q := s.queues[q] + [s.cur]], m)
      && (s.queues[m] != [] ==> s.queues[m][0] < |r.tasks| && r.tasks[s.queues[m][0]].state == Ready)
  {
    hide Release;
    ReleaseQueues(Park(At(s, Parked(m)), |s.locks| + c), m);
  }

  lemma QueueStep(s: Sys, a: Action, q: nat)
    requires Inv(s) && Enabled(s, a) && q < |s.queues|
    ensures var r, k := Step(s, a), FrontWoken(s, a, q);
      && |r.queues| == |s.queues| && |r.tasks| == |s.tasks|
      && r.queues[q] == s.queues[q][k..] + Arrives(s, a, q)
      && forall i :: 0 <= i < k ==> s.queues[q][i] < |s.tasks| && r.tasks[s.queues[q][i]].state == Ready
  {
    hide Inv, Core, Tick, Next, TryLock, Release, WakeAll, Park, OneRunning;
    InvBasics(s);
    match a
    case Timer =>
    case Continue =>
      var pc := Current(s).pc;
      if pc.LockRetry? || pc.LockCall? { LockQueues(s, pc.m); }
    case LockMutex(m) => LockQueues(s, m);
    case UnlockMutex(m) => ReleaseQueues(s, m);
    case Wait(c, m) => WaitQueues(s, c, m);
    case Signal(c) =>
    case Broadcast(c) => EveryoneWoken(s, |s.locks| + c);
    case Sleep(_) =>
  }

  function Members(ls: seq<nat>): set<nat> {
    set t | t in ls
  }

  lemma {:induction false} MembersCount(ls: seq<nat>)
    requires forall i, j :: 0 <= i < j < |ls| ==> ls[i] != ls[j]
    ensures |Members(ls)| == |ls|
  {
    if ls != [] {
      var n := |ls| - 1;
      MembersCount(ls[..n]);
      assert Members(ls) == Members(ls[..n]) + {ls[n]};
    }
  }

  lemma DistinctQueue(s: Sys, q: nat)
    requires Inv(s) && q < |s.queues|
    ensures forall i, j :: 0 <= i < j < |s.queues[q]| ==> s.queues[q][i] != s.queues[q][j]
    ensures forall t :: t in s.queues[q] ==> t < |s.tasks| && s.tasks[t].state == Blocked
  {
    forall t | t in s.queues[q] ensures t < |s.tasks| && s.tasks[t].state == Blocked {
      var i :| 0 <= i < |s.queues[q]| && s.queues[q][i] == t;
      assert Queued(s, t);
    }
  }

  /** The tasks a step wakes are the ones at the front. */
  lemma FrontLeaves(s: Sys, a: Action, q: nat)
    requires Inv(s) && Enabled(s, a) && q < |s.queues|
    ensures Woken(s, a, q) == Members(s.queues[q][..FrontWoken(s, a, q)])
    ensures |Woken(s, a, q)| == FrontWoken(s, a, q)
  {
    hide Inv, Step, FrontWoken, Arrives;
    InvBasics(s);
    var r, ls, k := Step(s, a), s.queues[q], FrontWoken(s, a, q);
    QueueStep(s, a, q);
    StepKeeps(s, a);
    DistinctQueue(s, q);
    DistinctQueue(r, q);
    MembersCount(ls[..k]);
    assert ls == ls[..k] + ls[k..];
    assert Woken(s, a, q) == Members(ls[..k]);
  }

  /** The tasks that a run puts into queue q, in that order. */
  ghost function Arrivals(s: Sys, run: seq<Action>, q: nat): seq<nat>
    requires Inv(s) && LegalRun(s, run)
    decreases |run|
  {
    if run == [] then [] else StepKeeps(s, run[0]); Arrives(s, run[0], q) + Arrivals(Step(s, run[0]), run[1..], q)
  }

  /** How many tasks a run wakes from queue q. */
  ghost function Wakes(s: Sys, run: seq<Action>, q: nat): nat
    requires Inv(s) && LegalRun(s, run)
    decreases |run|
  {
    if run == [] || q >= |s.queues| then 0
    else StepKeeps(s, run[0]); |Woken(s, run[0], q)| + Wakes(Step(s, run[0]), run[1..], q)
  }

  lemma Dropped(a: seq<nat>, k: nat, b: seq<nat>, c: seq<nat>, n: nat)
    requires k <= |a| && n <= |a[k..] + b + c|
    ensures (a[k..] + b + c)[n..] == (a + (b + c))[k + n..]
  {
    assert a[k..] + b + c == (a + (b + c))[k..];
  }

  /** In any run, tasks leave a queue in the order in which they came, only when they are
      woken, and none is lost: what is in the queue are the last of those that came. */
  lemma {:induction false} FirstComeFirstServed(s: Sys, run: seq<Action>, q: nat)
    requires Inv(s) && LegalRun(s, run) && q < |s.queues|
    ensures var r, all, k := Run(s, run), s.queues[q] + Arrivals(s, run, q), Wakes(s, run, q);
      |r.queues| == |s.queues| && k <= |all| && r.queues[q] == all[k..]
    decreases |run|
  {
    hide Inv, Step, FrontWoken, Arrives, Woken;
    InvBasics(s);
    if run != [] {
      var r := Step(s, run[0]);
      StepKeeps(s, run[0]);
      QueueStep(s, run[0], q);
      FrontLeaves(s, run[0], q);
      FirstComeFirstServed(r, run[1..], q);
      Dropped(s.queues[q], FrontWoken(s, run[0], q), Arrives(s, run[0], q), Arrivals(r, run[1..], q), Wakes(r, run[1..], q));
    }
  }

  /** Some step of the run wakes task t from queue q. */
  ghost predicate WokenIn(s: Sys, run: seq<Action>, t: nat, q: nat)
    requires Inv(s) && LegalRun(s, run)
    decreases |run|
  {
    run != [] && q < |s.queues| &&
    (t in Woken(s, run[0], q) || (StepKeeps(s, run[0]); WokenIn(Step(s, run[0]), run[1..], t, q)))
  }

  /** What a step does to place i of queue q. */
  lemma PlaceStep(s: Sys, a: Action, q: nat, i: nat)
    requires Inv(s) && Enabled(s, a) && q < |s.queues| && i < |s.queues[q]|
    ensures var r, t, k := Step(s, a), s.queues[q][i], |Woken(s, a, q)|;
      && (t in Woken(s, a, q) <==> i < k) && |r.queues| == |s.queues|
      && (k <= i ==> i - k < |r.queues[q]| && r.queues[q][i - k] == t)
  {
    hide Inv, Step, FrontWoken, Arrives, Woken;
    InvBasics(s);
    FrontLeaves(s, a, q);
    QueueStep(s, a, q);
    DistinctQueue(s, q);
  }

  /** The task at place i of a queue is woken exactly when more than i tasks have been; until
      then it moves up by one place for each. */
  lemma {:induction false} WokenInTurn(s: Sys, run: seq<Action>, q: nat, i: nat)
    requires Inv(s) && LegalRun(s, run) && q < |s.queues| && i < |s.queues[q]|
    ensures WokenIn(s, run, s.queues[q][i], q) <==> i < Wakes(s, run, q)
    ensures var r, k := Run(s, run), Wakes(s, run, q);
      k <= i ==> q < |r.queues| && i - k < |r.queues[q]| && r.queues[q][i - k] == s.queues[q][i]
    decreases |run|
  {
    hide Inv, Step, Woken;
    InvBasics(s);
    if run != [] {
      StepKeeps(s, run[0]);
      PlaceStep(s, run[0], q, i);
      var k := |Woken(s, run[0], q)|;
      if k <= i {
        WokenInTurn(Step(s, run[0]), run[1..], q, i - k);
      }
    }
  }

  /** cond_wait releases the mutex and queues the task, behind all others, in one stretch: no
      signal can come in between. */
  lemma WaitIsAtomic(s: Sys, c: nat, m: nat)
    requires Inv(s) && Enabled(s, Wait(c, m))
    ensures var r, q := Step(s, Wait(c, m)), |s.locks| + c;
      && r.locks == s.locks[m := Mutex(false, NIL)] && r.cur == s.cur
      && r.queues == WithoutFirst(s.queues, m)[q := s.queues[q] + [s.cur]]
      && |r.tasks| == |s.tasks|
      && Current(r) == Current(s).(state := Blocked, pc := Parked(m), holds := Current(s).holds - {m})
      && forall t :: 0 <= t < |s.tasks| && t != s.cur ==>
        r.tasks[t] == if s.queues[m] != [] && t == s.queues[m][0] then s.tasks[t].(state := Ready) else s.tasks[t]
  {
    hide Inv, WellFormed;
    InvBasics(s);
    FirstIsNotCur(s, m);
  }

  /** No signal is lost on a waiting task: it is woken exactly when more tasks have been woken
      from its condition than waited when it came. */
  lemma WaiterWokenInTurn(s: Sys, c: nat, m: nat, run: seq<Action>)
    requires Inv(s) && Enabled(s, Wait(c, m)) && Inv(Step(s, Wait(c, m))) && LegalRun(Step(s, Wait(c, m)), run)
    ensures |s.locks| + c < |s.queues|
    ensures var r, q := Step(s, Wait(c, m)), |s.locks| + c;
      WokenIn(r, run, s.cur, q) <==> |s.queues[q]| < Wakes(r, run, q)
  {
    hide Inv, Step, LegalRun, WokenIn, Wakes;
    InvBasics(s);
    WaitIsAtomic(s, c, m);
    WokenInTurn(Step(s, Wait(c, m)), run, |s.locks| + c, |s.queues[|s.locks| + c]|);
  }

  // ---------------------------------------------------------------- counting callbacks

  /** The step is, or ends in, a timer callback. */
  predicate Ticks(s: Sys, a: Action)
    requires WellFormed(s) && PcsInRange(s) && Enabled(s, a)
  {
    match a
    case Timer => true
    case Continue => (
      match Current(s).pc
      case LockRetry(m) => s.locks[m].locked
      case LockCall(m) => s.locks[m].locked
      case Parked(_) => true
      case SleepSet => false
      case SleepMarked => true
    )
    case LockMutex(m) => s.locks[m].locked
    case _ => false
  }

  ghost function TickCount(s: Sys, run: seq<Action>): nat
    requires Inv(s) && LegalRun(s, run)
    decreases |run|
  {
    if run == [] then 0
    else
      StepKeeps(s, run[0]);
      (if Ticks(s, run[0]) then 1 else 0) + TickCount(Step(s, run[0]), run[1..])
  }

  /** Some callback of the run picks task t, still at place pc. */
  ghost predicate Resumes(s: Sys, run: seq<Action>, t: nat, pc: Pc)
    requires Inv(s) && LegalRun(s, run)
    decreases |run|
  {
    run != [] && (
      StepKeeps(s, run[0]);
      var r := Step(s, run[0]);
      (Ticks(s, run[0]) && r.cur == t && Current(r).pc == pc) || Resumes(r, run[1..], t, pc))
  }

  /** The tasks as the callback of a ticking step finds them. */
  function BeforeTick(s: Sys, a: Action): Sys
    requires WellFormed(s) && PcsInRange(s) && Enabled(s, a) && Ticks(s, a)
  {
    match a
    case Timer => s
    case Continue => (
      match Current(s).pc
      case LockRetry(m) => Park(At(s, LockRetry(m)), m)
      case LockCall(m) => Park(At(s, LockRetry(m)), m)
      case Parked(m) => At(s, LockCall(m))
      case SleepMarked => At(s, User)
    )
    case LockMutex(m) => Park(At(s, LockRetry(m)), m)
  }

  lemma TickStep(s: Sys, a: Action)
    requires Inv(s) && Enabled(s, a) && Ticks(s, a)
    ensures var b := BeforeTick(s, a);
      && Step(s, a) == Callback(b) && b.cur == s.cur && |b.tasks| == |s.tasks| && OneRunning(b) && IdleRuns(b)
      && (forall t :: 0 <= t < |s.tasks| && t != s.cur ==> b.tasks[t] == s.tasks[t])
      && (Current(s).state == Sleeping ==> Current(b).state == Sleeping && Current(b).sleepTicks == Current(s).sleepTicks)
  {
    assert IdleRuns(s) && OneRunning(s);
  }

  lemma NoQueue(s: Sys, t: nat)
    requires Inv(s) && t < |s.tasks| && s.tasks[t].state != Blocked
    ensures forall q :: 0 <= q < |s.queues| ==> t !in s.queues[q]
  {
    assert !Queued(s, t);
  }

  lemma NotWoken(s: Sys, q: nat, t: nat)
    requires WellFormed(s) && q < |s.queues| && t < |s.tasks| && t !in s.queues[q]
    ensures WakeFirst(s, q).tasks[t] == s.tasks[t]
  {
    assert s.queues[q] != [] ==> s.queues[q][0] in s.queues[q];
  }

  lemma {:induction false} NoneWoken(s: Sys, q: nat, t: nat)
    requires WellFormed(s) && q < |s.queues| && t < |s.tasks| && t !in s.queues[q]
    ensures WakeAll(s, q).tasks[t] == s.tasks[t]
    decreases |s.queues[q]|
  {
    if s.queues[q] != [] {
      NotWoken(s, q, t);
      NoneWoken(WakeFirst(s, q), q, t);
    }
  }

  /** A step without a callback leaves the others alone, except that it may make blocked
      ones ready. */
  lemma QuietStep(s: Sys, a: Action, t: nat)
    requires Inv(s) && Enabled(s, a) && !Ticks(s, a) && t < |s.tasks| && t != s.cur && s.tasks[t].state != Blocked
    ensures var r := Step(s, a);
      r.cur == s.cur && |r.tasks| == |s.tasks| && r.tasks[t] == s.tasks[t]
  {
    hide Inv, WakeFirst, WakeAll, Callback, Queued, Core, OneRunning;
    InvBasics(s);
    NoQueue(s, t);
    match a
    case UnlockMutex(m) => NotWoken(Unheld(s, m), m, t);
    case Wait(c, m) =>
      var p := Park(At(s, Parked(m)), |s.locks| + c);
      forall q | 0 <= q < |p.queues| ensures t !in p.queues[q] {
        assert t !in s.queues[q];
      }
      NotWoken(Unheld(p, m), m, t);
    case Signal(c) => NotWoken(s, |s.locks| + c, t);
    case Broadcast(c) => NoneWoken(s, |s.locks| + c, t);
    case _ =>
  }

  lemma DistanceShrinks(cur: nat, p: nat, t: nat, n: nat)
    requires cur < n && p < n && t < n && p != t && Distance(cur, p, n) <= Distance(cur, t, n)
    ensures Distance(p, t, n) < Distance(cur, t, n)
  {
  }

  /** A callback picks a task that is ready, or at least moves closer to it. */
  lemma TickApproaches(s: Sys, a: Action, t: nat)
    requires Inv(s) && Enabled(s, a) && Ticks(s, a) && t < |s.tasks|
    requires (t != s.cur && s.tasks[t].state == Ready) || (s.tasks[t].state == Sleeping && s.tasks[t].sleepTicks == 1)
    ensures var r := Step(s, a);
      && r.cur < |s.tasks| == |r.tasks| && (t != s.cur ==> r.tasks[t].pc == s.tasks[t].pc)
      && (r.cur == t || (r.tasks[t].state == Ready && Distance(r.cur, t, |r.tasks|) < Distance(s.cur, t, |s.tasks|)))
  {
    var b := BeforeTick(s, a);
    TickStep(s, a);
    TickIsFair(b.tasks, b.cur, t);
    TickEffect(b.tasks, b.cur);
    hide Inv, Step, BeforeTick, Tick, Next, Distance, OneRunning;
    if Next(b.tasks, b.cur) != t {
      DistanceShrinks(s.cur, Next(b.tasks, b.cur), t, |s.tasks|);
    }
  }

  /** A ready task runs within as many callbacks as it is places behind the current one:
      with n tasks, within n - 1. */
  lemma {:induction false} ReadyTaskRuns(s: Sys, run: seq<Action>, t: nat)
    requires Inv(s) && LegalRun(s, run) && t < |s.tasks| && s.tasks[t].state == Ready
    requires TickCount(s, run) >= Distance(s.cur, t, |s.tasks|)
    ensures Resumes(s, run, t, s.tasks[t].pc)
    decreases |run|
  {
    assert t != s.cur;
    assert run != [];
    var r := Step(s, run[0]);
    StepKeeps(s, run[0]);
    if Ticks(s, run[0]) {
      TickApproaches(s, run[0], t);
    } else {
      QuietStep(s, run[0], t);
    }
    hide Inv, Step, Ticks, Distance;
    if !(Ticks(s, run[0]) && r.cur == t) {
      ReadyTaskRuns(r, run[1..], t);
    }
  }

  /** n - 1 callbacks suffice. */
  lemma AtMostAllOthers(s: Sys, t: nat)
    requires Inv(s) && t < |s.tasks| && s.tasks[t].state == Ready
    ensures Distance(s.cur, t, |s.tasks|) <= |s.tasks| - 1
  {
  }

  // ---------------------------------------------------------------- sleepers

  /** One callback counts a sleeper down by one; any other step leaves it asleep. */
  lemma SleeperStep(s: Sys, a: Action, t: nat)
    requires Inv(s) && Enabled(s, a) && t < |s.tasks| && s.tasks[t].state == Sleeping
    ensures var r, k := Step(s, a), s.tasks[t].sleepTicks;
      && |r.tasks| == |s.tasks| && k > 0
      && (!Ticks(s, a) ==> r.tasks[t].state == Sleeping && r.tasks[t].sleepTicks == k)
      && (Ticks(s, a) && k > 1 ==> r.tasks[t].state == Sleeping && r.tasks[t].sleepTicks == k - 1)
      && (Ticks(s, a) && k == 1 ==> Runnable(r.tasks[t]))
  {
    assert SleepersCount(s) && CurrentRuns(s);
    if Ticks(s, a) {
      var b := BeforeTick(s, a);
      TickStep(s, a);
      TickIsFair(b.tasks, b.cur, 0);
      TickEffect(b.tasks, b.cur);
      hide Inv, Step, BeforeTick, Tick, Next, Distance, OneRunning;
    } else if t != s.cur {
      QuietStep(s, a, t);
    }
  }

  /** The run up to its k-th callback. */
  ghost function UpTo(s: Sys, run: seq<Action>, k: nat): (p: seq<Action>)
    requires Inv(s) && LegalRun(s, run) && TickCount(s, run) >= k
    ensures LegalRun(s, p) && TickCount(s, p) == k && p <= run
    decreases |run|
  {
    if k == 0 then []
    else
      StepKeeps(s, run[0]);
      var rest := UpTo(Step(s, run[0]), run[1..], if Ticks(s, run[0]) then k - 1 else k);
      var p := [run[0]] + rest;
      assert p[1..] == rest && run == [run[0]] + run[1..];
      p
  }

  lemma UpToNone(s: Sys, run: seq<Action>)
    requires Inv(s) && LegalRun(s, run)
    ensures UpTo(s, run, 0) == [] && LegalRun(s, []) && Run(s, []) == s
  {
  }

  /** A task put to sleep for k ticks sleeps through the first k - 1 callbacks, whatever
      happens in between, and is ready, or already picked, after the k-th. */
  lemma {:induction false} SleeperWakes(s: Sys, run: seq<Action>, t: nat, j: nat)
    requires Inv(s) && LegalRun(s, run) && t < |s.tasks| && s.tasks[t].state == Sleeping
    requires j <= s.tasks[t].sleepTicks && TickCount(s, run) >= j
    ensures var k, r := s.tasks[t].sleepTicks, Run(s, UpTo(s, run, j));
      t < |r.tasks| &&
      if j < k then r.tasks[t].state == Sleeping && r.tasks[t].sleepTicks == k - j else Runnable(r.tasks[t])
    decreases |run|
  {
    if j == 0 {
      assert SleepersCount(s);
    } else {
      var k := s.tasks[t].sleepTicks;
      var r := Step(s, run[0]);
      StepKeeps(s, run[0]);
      SleeperStep(s, run[0], t);
      var j' := if Ticks(s, run[0]) then j - 1 else j;
      assert [run[0]] + UpTo(r, run[1..], j') == UpTo(s, run, j);
      assert UpTo(s, run, j)[1..] == UpTo(r, run[1..], j');
      hide Inv, Step, Ticks, UpTo;
      if r.tasks[t].state == Sleeping {
        SleeperWakes(r, run[1..], t, j');
      } else {
        UpToNone(r, run[1..]);
      }
    }
  }

  lemma SleeperTick(s: Sys, a: Action, t: nat)
    requires Inv(s) && Enabled(s, a) && Ticks(s, a) && t < |s.tasks| && s.tasks[t].state == Sleeping
    ensures var r := Step(s, a);
      && |r.tasks| == |s.tasks| && (t != s.cur ==> r.tasks[t].pc == s.tasks[t].pc)
      && (r.cur == t ==> Runnable(r.tasks[t]))
      && (s.tasks[t].sleepTicks > 1 ==> r.cur != t)
      && (s.tasks[t].sleepTicks == 1 && r.cur != t ==> r.tasks[t].state == Ready)
  {
    var b := BeforeTick(s, a);
    TickStep(s, a);
    TickIsFair(b.tasks, b.cur, 0);
    TickEffect(b.tasks, b.cur);
    hide Inv, Step, BeforeTick, Tick, Next, Distance, OneRunning;
  }

  /** A task asleep for k more ticks runs within k + n - 1 callbacks. */
  lemma {:induction false} SleeperRuns(s: Sys, run: seq<Action>, t: nat)
    requires Inv(s) && LegalRun(s, run) && t < |s.tasks| && t != s.cur && s.tasks[t].state == Sleeping
    requires TickCount(s, run) >= s.tasks[t].sleepTicks + |s.tasks| - 1
    ensures Resumes(s, run, t, s.tasks[t].pc)
    decreases |run|
  {
    assert s.tasks[t].sleepTicks > 0 by { assert SleepersCount(s); }
    assert run != [];
    var r, k := Step(s, run[0]), s.tasks[t].sleepTicks;
    StepKeeps(s, run[0]);
    SleeperStep(s, run[0], t);
    if Ticks(s, run[0]) {
      SleeperTick(s, run[0], t);
      if k == 1 && r.cur != t { AtMostAllOthers(r, t); }
    } else {
      QuietStep(s, run[0], t);
    }
    hide Inv, Step, Ticks, Distance;
    if !(Ticks(s, run[0]) && r.cur == t) {
      if Ticks(s, run[0]) && k == 1 {
        ReadyTaskRuns(r, run[1..], t);
      } else {
        SleeperRuns(r, run[1..], t);
      }
    }
  }

  lemma MarkedStep(s: Sys, a: Action)
    requires Inv(s) && Current(s).pc == SleepMarked && Enabled(s, a)
    ensures var r := Step(s, a);
      |r.tasks| == |s.tasks| && (r.tasks[s.cur].pc == User || r.tasks[s.cur].pc == SleepMarked)
  {
    var b := BeforeTick(s, a);
    TickStep(s, a);
    TickIsFair(b.tasks, b.cur, 0);
    TickEffect(b.tasks, b.cur);
    hide Inv, Tick, Next, Distance;
  }

  /** From the moment sleep has marked the current task for k ticks, it runs again within
      k + n - 1 callbacks. */
  lemma SleepBound(s: Sys, run: seq<Action>)
    requires Inv(s) && LegalRun(s, run) && Current(s).state == Sleeping
    requires TickCount(s, run) >= Current(s).sleepTicks + |s.tasks| - 1
    ensures Resumes(s, run, s.cur, SleepMarked) || Resumes(s, run, s.cur, User)
  {
    var t, k := s.cur, Current(s).sleepTicks;
    assert SleepersCount(s) && CurrentRuns(s);
    assert run != [];
    var r, a := Step(s, run[0]), run[0];
    StepKeeps(s, a);
    assert a == Timer || a == Continue;
    SleeperStep(s, a, t);
    SleeperTick(s, a, t);
    assert r.tasks[t].pc == User || r.tasks[t].pc == SleepMarked by { assert SleepersCount(r); MarkedStep(s, a); }
    if k == 1 && r.cur != t { AtMostAllOthers(r, t); }
    hide Inv, Step, Distance;
    if r.cur != t {
      if k == 1 { ReadyTaskRuns(r, run[1..], t); } else { SleeperRuns(r, run[1..], t); }
    }
  }

  /** Some step of the run is task t's second store in sleep. */
  ghost predicate Marks(s: Sys, run: seq<Action>, t: nat)
    requires Inv(s) && LegalRun(s, run)
    decreases |run|
  {
    run != [] && ((s.cur == t && run[0] == Continue) || (StepKeeps(s, run[0]); Marks(Step(s, run[0]), run[1..], t)))
  }

  /** Between its two stores in sleep a task stays runnable and keeps its ticks. */
  lemma StoredStep(s: Sys, a: Action, t: nat)
    requires Inv(s) && Enabled(s, a) && t < |s.tasks| && s.tasks[t].pc == SleepSet
    requires !(s.cur == t && a == Continue)
    ensures Runnable(s.tasks[t])
    ensures var r := Step(s, a);
      t < |r.tasks| && r.tasks[t].pc == SleepSet && r.tasks[t].sleepTicks == s.tasks[t].sleepTicks
  {
    assert SleepersCount(s) && QueuePcs(s) && CurrentRuns(s);
    assert s.tasks[t].state == Blocked ==> Queued(s, t);
    if Ticks(s, a) {
      var b := BeforeTick(s, a);
      TickStep(s, a);
      TickIsFair(b.tasks, b.cur, 0);
      TickEffect(b.tasks, b.cur);
      hide Inv, Step, Tick, Next, Distance, OneRunning;
    } else if t != s.cur {
      QuietStep(s, a, t);
    }
  }

  lemma {:induction false} StoredRun(s: Sys, run: seq<Action>, t: nat)
    requires Inv(s) && LegalRun(s, run) && t < |s.tasks| && s.tasks[t].pc == SleepSet && !Marks(s, run, t)
    ensures var r := Run(s, run);
      t < |r.tasks| && r.tasks[t].pc == SleepSet && r.tasks[t].sleepTicks == s.tasks[t].sleepTicks
    decreases |run|
  {
    hide Inv, Step, Ticks;
    InvBasics(s);
    if run != [] {
      StepKeeps(s, run[0]);
      StoredStep(s, run[0], t);
      StoredRun(Step(s, run[0]), run[1..], t);
    }
  }

  /** sleep(ms), whatever happens between its two stores: when the task makes the second, it
      is asleep for max(1, ms / 10) ticks. */
  lemma SleepSetsTicks(s: Sys, ms: nat, run: seq<Action>)
    requires Inv(s) && Enabled(s, Sleep(ms)) && Inv(Step(s, Sleep(ms))) && LegalRun(Step(s, Sleep(ms)), run)
    requires !Marks(Step(s, Sleep(ms)), run, s.cur)
    ensures var r := Run(Step(s, Sleep(ms)), run);
      r.cur == s.cur ==>
        && Enabled(r, Continue) && !Ticks(r, Continue)
        && var q := Step(r, Continue);
          q.cur == s.cur && Current(q).state == Sleeping && Current(q).sleepTicks == (if ms < 20 then 1 else ms / 10)
  {
    hide Inv, Marks;
    InvBasics(s);
    StoredRun(Step(s, Sleep(ms)), run, s.cur);
  }

  // ---------------------------------------------------------------- woken waiters

  lemma CurrentIsRunning(s: Sys)
    requires Inv(s) && (Current(s).pc == User || Current(s).pc.LockRetry? || Current(s).pc.LockCall?)
    ensures Current(s).state == Running
  {
    assert CurrentRuns(s) && SleepersCount(s);
  }

  lemma NotIdle(s: Sys)
    requires Inv(s)
    ensures Current(s).pc != User ==> s.cur != 0
  {
    assert IdleRuns(s);
  }

  /** What a round of mutex_lock by task t comes to: it holds the mutex if that was free, or
      else is blocked, last in the queue, and another task runs. */
  ghost predicate Tried(s: Sys, r: Sys, t: nat, m: nat) {
    && t < |s.tasks| == |r.tasks| && m < |s.locks| && m < |s.queues|
    && if s.locks[m].locked then
         && r.locks == s.locks && r.queues == s.queues[m := s.queues[m] + [t]] && r.cur != t
         && r.tasks[t].state == Blocked && r.tasks[t].pc == LockRetry(m) && r.tasks[t].holds == s.tasks[t].holds
       else
         && r.locks == s.locks[m := Mutex(true, t)] && r.queues == s.queues && r.cur == t
         && r.tasks[t] == s.tasks[t].(pc := User, holds := s.tasks[t].holds + {m}) && r.tasks[t].state == Running
         && forall u :: 0 <= u < |s.tasks| && u != t ==> r.tasks[u] == s.tasks[u]
  }

  /** The callback at the end of a blocking round leaves the task blocked. */
  lemma BlockedStays(s: Sys, t: nat)
    requires Core(s) && t < |s.tasks| && s.tasks[t].state == Blocked
    ensures var r := Callback(s);
      |r.tasks| == |s.tasks| && r.cur != t && r.tasks[t].state == Blocked
      && r.tasks[t].pc == s.tasks[t].pc && r.tasks[t].holds == s.tasks[t].holds
  {
    TickIsFair(s.tasks, s.cur, 0);
    TickEffect(s.tasks, s.cur);
    hide Tick, Next, Distance;
  }

  /** A call of mutex_lock, its next round after being woken, and the call at the end of
      cond_wait. */
  lemma LockTried(s: Sys, a: Action, m: nat)
    requires Inv(s) && Enabled(s, a)
    requires a == LockMutex(m) || (a == Continue && (Current(s).pc == LockRetry(m) || Current(s).pc == LockCall(m)))
    ensures Tried(s, Step(s, a), s.cur, m)
  {
    hide Core, Tick, Next, OneRunning;
    InvBasics(s);
    CurrentIsRunning(s);
    LockQueues(s, m);
    if s.locks[m].locked {
      NotIdle(s);
      AtKeeps(s, LockRetry(m));
      ParkKeeps(At(s, LockRetry(m)), m);
      BlockedStays(Park(At(s, LockRetry(m)), m), s.cur);
    }
  }

  /** A task at that place does nothing else first: the test comes before any interrupt. */
  lemma RetestComesNext(s: Sys, a: Action, m: nat)
    requires Inv(s) && Current(s).pc == LockRetry(m)
    ensures Enabled(s, a) <==> a == Continue
    ensures Tried(s, Step(s, Continue), s.cur, m)
  {
    hide Tried;
    InvBasics(s);
    LockTried(s, Continue, m);
  }

  /** A task coming back from cond_wait calls mutex_lock next, unless it is interrupted. */
  lemma ReturnLocks(s: Sys, a: Action, m: nat)
    requires Inv(s) && Current(s).pc == LockCall(m)
    ensures Enabled(s, a) <==> a == Timer || a == Continue
    ensures Tried(s, Step(s, Continue), s.cur, m)
  {
    hide Tried;
    InvBasics(s);
    LockTried(s, Continue, m);
  }

  /** The next step of the run tests mutex m, whatever it is: task t is about to, and cannot
      even be interrupted. */
  ghost predicate NextTests(s: Sys, t: nat, m: nat)
    requires Inv(s)
  {
    && s.cur == t && (forall a :: Enabled(s, a) <==> a == Continue)
    && Tried(s, Step(s, Continue), t, m)
  }

  ghost predicate TestsAfter(s: Sys, run: seq<Action>, k: nat, t: nat, m: nat)
    requires Inv(s)
  {
    k <= |run| && LegalRun(s, run[..k]) && NextTests(Run(s, run[..k]), t, m)
  }

  /** How far the run is when the task resumes. */
  lemma {:induction false} ResumePoint(s: Sys, run: seq<Action>, t: nat, pc: Pc) returns (k: nat)
    requires Inv(s) && LegalRun(s, run) && Resumes(s, run, t, pc)
    ensures k <= |run| && LegalRun(s, run[..k])
    ensures var r := Run(s, run[..k]);
      r.cur == t < |r.tasks| && r.tasks[t].pc == pc
    decreases |run|
  {
    hide Inv, Step, Ticks, Enabled;
    InvBasics(s);
    var r := Step(s, run[0]);
    StepKeeps(s, run[0]);
    InvBasics(r);
    if Ticks(s, run[0]) && r.cur == t && Current(r).pc == pc {
      k := 1;
      assert run[..1][1..] == [];
    } else {
      var rest := ResumePoint(r, run[1..], t, pc);
      k := rest + 1;
      assert run[..k][1..] == run[1..][..rest];
    }
  }

  lemma ResumedTests(s: Sys, run: seq<Action>, t: nat, m: nat)
    requires Inv(s) && LegalRun(s, run) && Resumes(s, run, t, LockRetry(m))
    ensures exists k :: TestsAfter(s, run, k, t, m)
  {
    hide Inv, Step, Enabled, LegalRun, Resumes, Run;
    var k := ResumePoint(s, run, t, LockRetry(m));
    var r := Run(s, run[..k]);
    InvBasics(r);
    forall a ensures Enabled(r, a) <==> a == Continue {
      RetestComesNext(r, a, m);
    }
    RetestComesNext(r, Continue, m);
    assert TestsAfter(s, run, k, t, m);
  }

  lemma TestsNow(s: Sys, run: seq<Action>, m: nat)
    requires Inv(s) && Current(s).pc == LockRetry(m)
    ensures TestsAfter(s, run, 0, s.cur, m)
  {
    hide Inv, Step, Enabled;
    InvBasics(s);
    assert run[..0] == [];
    forall a ensures Enabled(s, a) <==> a == Continue {
      RetestComesNext(s, a, m);
    }
    RetestComesNext(s, Continue, m);
  }

  /** Where queued tasks are: about to test the mutex, or inside cond_wait. */
  lemma QueuedWhere(s: Sys, q: nat, t: nat)
    requires Inv(s) && q < |s.queues| && t in s.queues[q] && t < |s.tasks|
    ensures if q < |s.locks| then s.tasks[t].pc == LockRetry(q) else s.tasks[t].pc.Parked? || s.tasks[t].pc.LockCall?
  {
    assert QueuePcs(s);
  }

  /** With a mutex unlocked and tasks in its queue, some task is about to test it: the
      current one, or one that runs again within n - 1 callbacks, still about to. */
  lemma WokenWaiterRetests(s: Sys, run: seq<Action>, m: nat)
    requires Inv(s) && LegalRun(s, run) && m < |s.locks| && !s.locks[m].locked && s.queues[m] != []
    requires TickCount(s, run) >= |s.tasks| - 1
    ensures Current(s).pc == LockRetry(m) ||
      exists t :: 0 <= t < |s.tasks| && s.tasks[t].state == Ready && s.tasks[t].pc == LockRetry(m) && Resumes(s, run, t, LockRetry(m))
    ensures exists k, t :: TestsAfter(s, run, k, t, m)
  {
    assert Retrier(s, m);
    var t :| 0 <= t < |s.tasks| && s.tasks[t].pc == LockRetry(m) && s.tasks[t].state != Blocked;
    if t != s.cur {
      assert s.tasks[t].state == Ready;
      AtMostAllOthers(s, t);
      ReadyTaskRuns(s, run, t);
      ResumedTests(s, run, t, m);
    } else {
      TestsNow(s, run, m);
    }
  }

  /** cond_signal wakes the task that has waited longest for the condition, and nobody else. */
  lemma SignalWakesFirst(s: Sys, c: nat)
    requires Inv(s) && Enabled(s, Signal(c))
    ensures var r, q := Step(s, Signal(c)), |s.locks| + c;
      && |r.queues| == |s.queues| && r.queues[q] == (if s.queues[q] == [] then [] else s.queues[q][1..])
      && (forall k :: 0 <= k < |s.queues| && k != q ==> r.queues[k] == s.queues[k])
      && |r.tasks| == |s.tasks|
      && forall t :: 0 <= t < |s.tasks| ==>
        r.tasks[t] == if s.queues[q] != [] && t == s.queues[q][0] then s.tasks[t].(state := Ready) else s.tasks[t]
    ensures Step(s, Signal(c)).locks == s.locks && Step(s, Signal(c)).cur == s.cur
  {
  }

  /** After cond_signal, the task that has waited longest runs within n - 1 callbacks. */
  lemma SignalledTaskRuns(s: Sys, c: nat, run: seq<Action>)
    requires Inv(s) && Enabled(s, Signal(c)) && s.queues[|s.locks| + c] != []
    requires Inv(Step(s, Signal(c))) && LegalRun(Step(s, Signal(c)), run)
    requires TickCount(Step(s, Signal(c)), run) >= |s.tasks| - 1
    ensures var t := s.queues[|s.locks| + c][0];
      && t < |s.tasks| && Resumes(Step(s, Signal(c)), run, t, s.tasks[t].pc)
      && (s.tasks[t].pc.Parked? || s.tasks[t].pc.LockCall?)
  {
    hide Inv, Step, LegalRun, TickCount, Resumes, Distance;
    InvBasics(s);
    DistinctQueue(s, |s.locks| + c);
    SignalWakesFirst(s, c);
    var t := s.queues[|s.locks| + c][0];
    assert t in s.queues[|s.locks| + c];
    QueuedWhere(s, |s.locks| + c, t);
    AtMostAllOthers(Step(s, Signal(c)), t);
    ReadyTaskRuns(Step(s, Signal(c)), run, t);
  }

  /** mutex_unlock gives up the mutex and wakes the task that has queued longest for it. */
  lemma UnlockWakesFirst(s: Sys, m: nat)
    requires Inv(s) && Enabled(s, UnlockMutex(m))
    ensures var r := Step(s, UnlockMutex(m));
      && r.locks == s.locks[m := Mutex(false, NIL)] && r.cur == s.cur
      && r.queues == s.queues[m := if s.queues[m] == [] then [] else s.queues[m][1..]]
      && |r.tasks| == |s.tasks| && r.tasks[s.cur] == Current(s).(holds := Current(s).holds - {m})
      && (s.queues[m] != [] ==> s.queues[m][0] != s.cur)
      && forall t :: 0 <= t < |s.tasks| && t != s.cur ==>
        r.tasks[t] == if s.queues[m] != [] && t == s.queues[m][0] then s.tasks[t].(state := Ready) else s.tasks[t]
  {
    hide Inv, WellFormed;
    InvBasics(s);
    FirstIsNotCur(s, m);
  }

  /** After mutex_unlock, the task that has queued longest tests the mutex, within n - 1
      callbacks. */
  lemma UnlockedTaskTests(s: Sys, m: nat, run: seq<Action>)
    requires Inv(s) && Enabled(s, UnlockMutex(m)) && s.queues[m] != []
    requires Inv(Step(s, UnlockMutex(m))) && LegalRun(Step(s, UnlockMutex(m)), run)
    requires TickCount(Step(s, UnlockMutex(m)), run) >= |s.tasks| - 1
    ensures exists k :: TestsAfter(Step(s, UnlockMutex(m)), run, k, s.queues[m][0], m)
  {
    hide Inv, Step, LegalRun, TickCount, Resumes, Distance, TestsAfter;
    InvBasics(s);
    DistinctQueue(s, m);
    UnlockWakesFirst(s, m);
    var r, t := Step(s, UnlockMutex(m)), s.queues[m][0];
    assert t in s.queues[m];
    QueuedWhere(s, m, t);
    AtMostAllOthers(r, t);
    ReadyTaskRuns(r, run, t);
    ResumedTests(r, run, t, m);
  }

  /** The task resumes in front of the mutex_lock of cond_wait. */
  ghost predicate ReturnsAfter(s: Sys, run: seq<Action>, k: nat, t: nat, m: nat)
    requires Inv(s)
  {
    && k <= |run| && LegalRun(s, run[..k])
    && var r := Run(s, run[..k]);
      r.cur == t && (forall a :: Enabled(r, a) <==> a == Timer || a == Continue) && Tried(r, Step(r, Continue), t, m)
  }

  lemma ResumedReturns(s: Sys, run: seq<Action>, t: nat, m: nat)
    requires Inv(s) && LegalRun(s, run) && Resumes(s, run, t, LockCall(m))
    ensures exists k :: ReturnsAfter(s, run, k, t, m)
  {
    hide Inv, Step, Enabled, LegalRun, Resumes, Run, Tried;
    var k := ResumePoint(s, run, t, LockCall(m));
    var r := Run(s, run[..k]);
    InvBasics(r);
    forall a ensures Enabled(r, a) <==> a == Timer || a == Continue {
      ReturnLocks(r, a, m);
    }
    ReturnLocks(r, Continue, m);
    assert ReturnsAfter(s, run, k, t, m);
  }

  /** After cond_signal, the task that has waited longest, if it had yielded, comes back within
      n - 1 callbacks, about to lock the mutex again. */
  lemma SignalledTaskReturns(s: Sys, c: nat, m: nat, t: nat, run: seq<Action>)
    requires Inv(s) && Enabled(s, Signal(c)) && s.queues[|s.locks| + c] != [] && t == s.queues[|s.locks| + c][0]
    requires t < |s.tasks| && s.tasks[t].pc == LockCall(m)
    requires Inv(Step(s, Signal(c))) && LegalRun(Step(s, Signal(c)), run)
    requires TickCount(Step(s, Signal(c)), run) >= |s.tasks| - 1
    ensures exists k :: ReturnsAfter(Step(s, Signal(c)), run, k, t, m)
  {
    hide Inv, Step, LegalRun, TickCount, Resumes, ReturnsAfter;
    InvBasics(s);
    SignalledTaskRuns(s, c, run);
    ResumedReturns(Step(s, Signal(c)), run, t, m);
  }

  // ---------------------------------------------------------------- the start

  ghost predicate AllFree(s: Sys) {
    && (forall m :: 0 <= m < |s.locks| ==> s.locks[m] == Mutex(false, NIL))
    && (forall q :: 0 <= q < |s.queues| ==> s.queues[q] == [])
  }

  /** Every task that kmain creates runs within n - 1 callbacks, from its beginning. */
  lemma NewTaskRuns(n: nat, mutexes: nat, conds: nat, run: seq<Action>, t: nat)
    requires 0 < t < n && Inv(Start(n, mutexes, conds)) && LegalRun(Start(n, mutexes, conds), run)
    requires TickCount(Start(n, mutexes, conds), run) >= n - 1
    ensures var s := Start(n, mutexes, conds);
      && s.cur == 0 && s.tasks[0] == Task(Running, 0, User, {}) && s.tasks[t] == Task(Ready, 0, User, {})
      && AllFree(s) && Resumes(s, run, t, User)
  {
    hide Inv, LegalRun, TickCount, Resumes, Distance;
    InvBasics(Start(n, mutexes, conds));
    AtMostAllOthers(Start(n, mutexes, conds), t);
    ReadyTaskRuns(Start(n, mutexes, conds), run, t);
  }

  /** Whatever has happened, the processor can go on. */
  lemma NeverStuck(s: Sys)
    requires Inv(s)
    ensures Enabled(s, Timer) || Enabled(s, Continue)
  {
  }
}
