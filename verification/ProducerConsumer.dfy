/** The producer and the consumer of src/kernel/main.c, statement by statement, as tasks 1
    and 2 among any number of others. The monitor is mutex 0 with condition variables 0
    (not empty) and 1 (not full); monitor.c only forwards to mutex.c and cond.c. */
module ProducerConsumer {
  import opened Options
  import opened Sched
  import opened Sync
  import opened Waiting

  const BUFFER_SIZE: nat := 5
  const NOT_EMPTY: nat := 0
  const NOT_FULL: nat := 1
  const FIRST_ITEM: nat := 100
  const PRODUCER: nat := 1
  const CONSUMER: nat := 2

  /** The statement a task executes next, once it is out of the kernel. AtSlot, AtIndex and
      AtCount stand for the three statements that access the ring. */
  datatype Line = AtSleep | AtEnter | AtTest | AtWait | AtSlot | AtIndex | AtCount | AtNotify | AtExit

  /** The globals of main.c, the producer's item, and what the consumer took so far. */
  datatype World = World(sys: Sys, p: Line, c: Line, buffer: seq<int>, count: int, head: nat, tail: nat,
                         item: int, consumed: seq<int>)

  /** Interrupt: a timer interrupt. InKernel: the running task goes on with its kernel call.
      Statement: the producer or the consumer executes a statement. Other: another task
      starts a kernel call, not on this monitor. */
  datatype Event = Interrupt | InKernel | Statement | Other(a: Action)

  predicate Critical(line: Line) {
    line != AtSleep && line != AtEnter
  }

  // ---------------------------------------------------------------- the invariant

  /** Where task t is in its loop fits with what the kernel knows about it. */
  ghost predicate Control(s: Sys, t: nat, line: Line, c: nat) {
    && t < |s.tasks| && |s.locks| + 2 <= |s.queues| && 0 < |s.locks|
    && var k := s.tasks[t];
    && (forall m :: m in k.holds ==> m == 0)
    && (0 in k.holds <==> k.pc == User && Critical(line))
    && (k.pc.LockRetry? || k.pc.LockCall? || k.pc.Parked? ==> k.pc.m == 0 && line == AtTest)
    && (k.pc.SleepSet? || k.pc.SleepMarked? ==> line == AtEnter)
    && (forall q :: 0 <= q < |s.queues| && t in s.queues[q] ==> q == 0 || q == |s.locks| + c)
  }

  /** The other tasks have nothing to do with the monitor. */
  ghost predicate Stranger(s: Sys, t: nat) {
    && t < |s.tasks| && |s.locks| + 2 <= |s.queues| && 0 < |s.locks|
    && var k := s.tasks[t];
    && 0 !in k.holds
    && (k.pc.LockRetry? || k.pc.LockCall? || k.pc.Parked? ==> k.pc.m != 0)
    && (forall q :: 0 <= q < |s.queues| && t in s.queues[q] ==> q != 0 && q != |s.locks| && q != |s.locks| + 1)
  }

  ghost predicate Controls(w: World) {
    && |w.sys.tasks| >= 3
    && Control(w.sys, PRODUCER, w.p, NOT_FULL) && Control(w.sys, CONSUMER, w.c, NOT_EMPTY)
    && forall t :: 0 <= t < |w.sys.tasks| && t != PRODUCER && t != CONSUMER ==> Stranger(w.sys, t)
  }

  function Flag(b: bool): nat {
    if b then 1 else 0
  }

  /** How far count lags behind the ring contents in mid-update. */
  function Lag(line: Line): nat {
    Flag(line == AtIndex || line == AtCount)
  }

  /** How many items were stored so far. */
  function Stored(w: World): int {
    w.item - FIRST_ITEM
  }

  /** The ring slot of the i-th item. */
  function Slot(i: int): (r: nat)
    ensures r < BUFFER_SIZE
  {
    i % 5
  }

  ghost predicate Ring(w: World) {
    var n, k := Stored(w), |w.consumed|;
    && |w.buffer| == BUFFER_SIZE && 0 <= n - k <= BUFFER_SIZE
    && w.count == n - k - Lag(w.p) + Lag(w.c)
    && (Lag(w.p) == 1 ==> n > k) && (Lag(w.c) == 1 ==> k > 0 && n - k < BUFFER_SIZE)
    && w.tail == Slot(n - Flag(w.p == AtIndex)) && w.head == Slot(k - Flag(w.c == AtIndex))
    && (forall i :: 0 <= i < k ==> w.consumed[i] == FIRST_ITEM + i)
    && (forall i {:trigger Slot(i)} :: k <= i < n ==> w.buffer[Slot(i)] == FIRST_ITEM + i)
  }

  /** What the tests just made have established. */
  ghost predicate Tested(w: World) {
    && (w.p == AtWait ==> w.count == BUFFER_SIZE) && (w.p == AtSlot ==> w.count < BUFFER_SIZE)
    && (w.c == AtWait ==> w.count == 0) && (w.c == AtSlot ==> w.count > 0)
  }

  /** A task waits for a condition only while it is false, or its signal is about to come. */
  ghost predicate WaitsMakeSense(w: World) {
    && |w.sys.locks| + 2 <= |w.sys.queues| && |w.sys.tasks| >= 3
    && (PRODUCER in w.sys.queues[|w.sys.locks| + NOT_FULL] ==> w.count == BUFFER_SIZE || w.c == AtNotify)
    && (CONSUMER in w.sys.queues[|w.sys.locks| + NOT_EMPTY] ==> w.count == 0 || w.p == AtNotify)
  }

  ghost predicate Good(w: World) {
    Inv(w.sys) && Controls(w) && Ring(w) && Tested(w) && WaitsMakeSense(w)
  }

  /** The monitor lets one of the two in at a time. */
  lemma OneInside(w: World)
    requires Inv(w.sys) && Controls(w)
    ensures !(w.sys.tasks[PRODUCER].pc == User && Critical(w.p) && w.sys.tasks[CONSUMER].pc == User && Critical(w.c))
    ensures (w.p != AtSleep && w.p != AtEnter && w.p != AtTest) ==> w.sys.tasks[PRODUCER].pc == User
    ensures (w.c != AtSleep && w.c != AtEnter && w.c != AtTest) ==> w.sys.tasks[CONSUMER].pc == User
  {
    InvMeans(w.sys);
    assert MutualExclusion(w.sys, 0);
  }

  // ---------------------------------------------------------------- steps

  predicate Foreign(a: Action) {
    match a
    case Timer => false
    case Continue => false
    case LockMutex(m) => m != 0
    case UnlockMutex(m) => m != 0
    case Wait(c, m) => c != NOT_EMPTY && c != NOT_FULL && m != 0
    case Signal(c) => c != NOT_EMPTY && c != NOT_FULL
    case Broadcast(c) => c != NOT_EMPTY && c != NOT_FULL
    case Sleep(_) => true
  }

  ghost predicate Possible(w: World, e: Event)
    requires Good(w)
  {
    match e
    case Interrupt => Enabled(w.sys, Timer)
    case InKernel => Enabled(w.sys, Continue)
    case Statement => (w.sys.cur == PRODUCER || w.sys.cur == CONSUMER) && Current(w.sys).pc == User
    case Other(a) => w.sys.cur != PRODUCER && w.sys.cur != CONSUMER && Foreign(a) && Enabled(w.sys, a)
  }

  /** The kernel call in a statement, if there is one. */
  function Call(line: Line, producer: bool): Action {
    match line
    case AtSleep => Sleep(if producer then 300 else 800)
    case AtEnter => LockMutex(0)
    case AtWait => Wait(if producer then NOT_FULL else NOT_EMPTY, 0)
    case AtNotify => Signal(if producer then NOT_EMPTY else NOT_FULL)
    case _ => UnlockMutex(0)
  }

  predicate IsCall(line: Line) {
    line == AtSleep || line == AtEnter || line == AtWait || line == AtNotify || line == AtExit
  }

  function AfterCall(line: Line): Line {
    match line
    case AtSleep => AtEnter
    case AtEnter => AtTest
    case AtWait => AtTest
    case AtNotify => AtExit
    case _ => AtSleep
  }

  /** The statements of the producer on its own and global variables. */
  function Produce(w: World): World
    requires |w.buffer| == BUFFER_SIZE && w.tail < BUFFER_SIZE
  {
    match w.p
    case AtTest => w.(p := if w.count == BUFFER_SIZE then AtWait else AtSlot)
    case AtSlot => w.(buffer := w.buffer[w.tail := w.item], item := w.item + 1, p := AtIndex)
    case AtIndex => w.(tail := (w.tail + 1) % 5, p := AtCount)
    case AtCount => w.(count := w.count + 1, p := AtNotify)
    case _ => w
  }

  function Consume(w: World): World
    requires |w.buffer| == BUFFER_SIZE && w.head < BUFFER_SIZE
  {
    match w.c
    case AtTest => w.(c := if w.count == 0 then AtWait else AtSlot)
    case AtSlot => w.(consumed := w.consumed + [w.buffer[w.head]], c := AtIndex)
    case AtIndex => w.(head := (w.head + 1) % 5, c := AtCount)
    case AtCount => w.(count := w.count - 1, c := AtNotify)
    case _ => w
  }

  lemma StatementEnabled(w: World)
    requires Good(w) && Possible(w, Statement)
    ensures w.sys.cur == PRODUCER && IsCall(w.p) ==> Enabled(w.sys, Call(w.p, true))
    ensures w.sys.cur == CONSUMER && IsCall(w.c) ==> Enabled(w.sys, Call(w.c, false))
  {
  }

  ghost function Perform(w: World, e: Event): World
    requires Good(w) && Possible(w, e)
  {
    match e
    case Interrupt => w.(sys := Step(w.sys, Timer))
    case InKernel => w.(sys := Step(w.sys, Continue))
    case Other(a) => w.(sys := Step(w.sys, a))
    case Statement =>
      StatementEnabled(w);
      if w.sys.cur == PRODUCER then
        if IsCall(w.p) then w.(sys := Step(w.sys, Call(w.p, true)), p := AfterCall(w.p)) else Produce(w)
      else
        if IsCall(w.c) then w.(sys := Step(w.sys, Call(w.c, false)), c := AfterCall(w.c)) else Consume(w)
  }

  // ---------------------------------------------------------------- the ring

  lemma ProducerNotQueued(w: World)
    requires Inv(w.sys) && Controls(w)
    ensures w.sys.tasks[PRODUCER].pc == User ==> PRODUCER !in w.sys.queues[|w.sys.locks| + NOT_FULL]
    ensures w.sys.tasks[CONSUMER].pc == User ==> CONSUMER !in w.sys.queues[|w.sys.locks| + NOT_EMPTY]
  {
    assert QueuePcs(w.sys);
  }

  lemma SlotsDiffer(i: int, n: int)
    requires n - BUFFER_SIZE < i < n
    ensures Slot(i) != Slot(n)
  {
  }

  lemma SlotBefore(n: int)
    ensures (Slot(n - 1) + 1) % 5 == Slot(n)
  {
  }

  lemma RingProduced(w: World)
    requires Ring(w) && Tested(w) && !IsCall(w.p) && Lag(w.c) == 0
    ensures Ring(Produce(w))
  {
    hide Slot;
    var r, n, k := Produce(w), Stored(w), |w.consumed|;
    SlotBefore(n);
    if w.p == AtSlot {
      forall i {:trigger Slot(i)} | k <= i < n + 1 ensures r.buffer[Slot(i)] == FIRST_ITEM + i {
        if i < n { SlotsDiffer(i, n); }
      }
    }
  }

  lemma RingShape(w: World)
    requires Ring(w)
    ensures |w.buffer| == BUFFER_SIZE && w.head < BUFFER_SIZE && w.tail < BUFFER_SIZE && 0 <= w.count <= BUFFER_SIZE
  {
  }

  lemma ProduceControls(w: World)
    requires Controls(w) && w.sys.cur == PRODUCER && Current(w.sys).pc == User && !IsCall(w.p)
    requires |w.buffer| == BUFFER_SIZE && w.tail < BUFFER_SIZE
    ensures Controls(Produce(w))
  {
  }

  lemma ProduceKeeps(w: World)
    requires Good(w) && w.sys.cur == PRODUCER && Current(w.sys).pc == User && !IsCall(w.p)
    ensures Good(Produce(w))
  {
    hide Inv, Ring, Control, Stranger, Stored;
    OneInside(w);
    RingShape(w);
    RingProduced(w);
    ProduceControls(w);
    ProducerNotQueued(w);
  }

  lemma RingConsumed(w: World)
    requires Ring(w) && Tested(w) && !IsCall(w.c) && Lag(w.p) == 0
    ensures Ring(Consume(w))
  {
    var k := |w.consumed|;
    SlotBefore(k);
    hide Slot;
    if w.c == AtSlot {
      assert w.buffer[Slot(k)] == FIRST_ITEM + k;
    }
  }

  lemma ConsumeControls(w: World)
    requires Controls(w) && w.sys.cur == CONSUMER && Current(w.sys).pc == User && !IsCall(w.c)
    requires |w.buffer| == BUFFER_SIZE && w.head < BUFFER_SIZE
    ensures Controls(Consume(w))
  {
  }

  lemma ConsumeKeeps(w: World)
    requires Good(w) && w.sys.cur == CONSUMER && Current(w.sys).pc == User && !IsCall(w.c)
    ensures Good(Consume(w))
  {
    hide Inv, Ring, Control, Stranger, Stored;
    OneInside(w);
    RingShape(w);
    RingConsumed(w);
    ConsumeControls(w);
    ProducerNotQueued(w);
  }

  // ---------------------------------------------------------------- what a kernel step changes

  /** Task t joined no queue, except perhaps q. */
  ghost predicate NotAdded(s: Sys, r: Sys, t: nat, q: int) {
    && |r.queues| == |s.queues| && |r.locks| == |s.locks|
    && forall k :: 0 <= k < |s.queues| && k != q && t in r.queues[k] ==> t in s.queues[k]
  }

  /** Places and mutexes are as before, and no queue has a new member. */
  ghost predicate Same(s: Sys, r: Sys, t: nat) {
    && t < |s.tasks| == |r.tasks|
    && r.tasks[t].pc == s.tasks[t].pc && r.tasks[t].holds == s.tasks[t].holds
    && NotAdded(s, r, t, -1)
  }

  lemma CallbackSame(s: Sys, t: nat)
    requires Core(s) && t < |s.tasks|
    ensures Same(s, Callback(s), t)
  {
    hide Tick, Next, Distance;
    TickIsFair(s.tasks, s.cur, 0);
    TickEffect(s.tasks, s.cur);
  }

  lemma WakeSame(s: Sys, q: nat, t: nat)
    requires WellFormed(s) && q < |s.queues| && t < |s.tasks|
    ensures Same(s, WakeFirst(s, q), t)
  {
  }

  lemma {:induction false} WakeAllSame(s: Sys, q: nat, t: nat)
    requires WellFormed(s) && q < |s.queues| && t < |s.tasks|
    ensures Same(s, WakeAll(s, q), t)
    decreases |s.queues[q]|
  {
    if s.queues[q] != [] {
      WakeSame(s, q, t);
      WakeAllSame(WakeFirst(s, q), q, t);
    }
  }

  lemma ParkedCore(s: Sys, m: nat)
    requires Inv(s) && s.cur != 0 && m < |s.locks| && s.locks[m].locked
    requires Current(s).pc == User || Current(s).pc == LockRetry(m) || Current(s).pc == LockCall(m)
    ensures m < |s.queues| && Core(Park(At(s, LockRetry(m)), m))
  {
    assert CurrentRuns(s);
    var a := At(s, LockRetry(m));
    AtKeeps(s, LockRetry(m));
    assert |a.queues| == |s.queues| && Current(a).pc == LockRetry(m);
    hide Core, At;
    ParkKeeps(a, m);
  }

  lemma TryLockSame(s: Sys, m: nat, t: nat)
    requires Inv(s) && s.cur != 0 && m < |s.locks| && t < |s.tasks|
    requires Current(s).pc == User || Current(s).pc == LockRetry(m) || Current(s).pc == LockCall(m)
    ensures t != s.cur ==> Same(s, TryLock(s, m), t)
    ensures t == s.cur ==>
      var r := TryLock(s, m);
      && |r.tasks| == |s.tasks| && NotAdded(s, r, t, m)
      && ((r.tasks[t].pc == LockRetry(m) && r.tasks[t].holds == s.tasks[t].holds)
          || (r.tasks[t].pc == User && r.tasks[t].holds == s.tasks[t].holds + {m}))
  {
    hide Inv, Core, Callback;
    InvBasics(s);
    if s.locks[m].locked {
      ParkedCore(s, m);
      CallbackSame(Park(At(s, LockRetry(m)), m), t);
    }
  }

  lemma WaitSame(s: Sys, q: nat, m: nat, t: nat)
    requires WellFormed(s) && m < |s.locks| <= q < |s.queues| && t < |s.tasks|
    ensures var r := Release(Park(At(s, Parked(m)), q), m);
      && (t != s.cur ==> Same(s, r, t))
      && (t == s.cur ==>
           (|r.tasks| == |s.tasks| && NotAdded(s, r, t, q)
            && r.tasks[t].pc == Parked(m) && r.tasks[t].holds == s.tasks[t].holds - {m}))
  {
    hide WakeFirst;
    var p := Park(At(s, Parked(m)), q);
    WakeSame(Unheld(p, m), m, t);
  }

  lemma ContinueSame(s: Sys, t: nat)
    requires Inv(s) && Enabled(s, Continue) && t < |s.tasks| && t != s.cur
    ensures Same(s, Step(s, Continue), t)
  {
    assert CurrentRuns(s) && SleepersCount(s);
    match Current(s).pc
    case LockRetry(m) => TryLockSame(s, m, t);
    case LockCall(m) => TryLockSame(s, m, t);
    case Parked(m) =>
      AtKeeps(s, LockCall(m));
      CallbackSame(At(s, LockCall(m)), t);
    case SleepSet =>
    case SleepMarked =>
      AtKeeps(s, User);
      CallbackSame(At(s, User), t);
  }

  /** A step does not touch the places and mutexes of the other tasks. */
  lemma OthersSame(s: Sys, a: Action, t: nat)
    requires Inv(s) && Enabled(s, a) && t < |s.tasks| && t != s.cur
    ensures Same(s, Step(s, a), t)
  {
    hide Callback, WakeFirst, WakeAll, TryLock;
    match a
    case Timer => CallbackSame(s, t);
    case Continue => ContinueSame(s, t);
    case LockMutex(m) => TryLockSame(s, m, t);
    case UnlockMutex(m) => WakeSame(Unheld(s, m), m, t);
    case Wait(c, m) => WaitSame(s, |s.locks| + c, m, t);
    case Signal(c) => WakeSame(s, |s.locks| + c, t);
    case Broadcast(c) => WakeAllSame(s, |s.locks| + c, t);
    case Sleep(_) =>
  }

  ghost predicate Moves(s: Sys, r: Sys, t: nat, pc: Pc) {
    && t < |s.tasks| == |r.tasks| && NotAdded(s, r, t, -1)
    && r.tasks[t].pc == pc && r.tasks[t].holds == s.tasks[t].holds
  }

  ghost predicate LockMoves(s: Sys, r: Sys, t: nat, m: nat) {
    && t < |s.tasks| == |r.tasks| && NotAdded(s, r, t, m)
    && ((r.tasks[t].pc == LockRetry(m) && r.tasks[t].holds == s.tasks[t].holds)
        || (r.tasks[t].pc == User && r.tasks[t].holds == s.tasks[t].holds + {m}))
  }

  /** What going on with a kernel call does to the place of the running task. */
  lemma ContinueMoves(s: Sys)
    requires Inv(s) && Enabled(s, Continue)
    ensures var r, t := Step(s, Continue), s.cur;
      && |r.tasks| == |s.tasks|
      && match s.tasks[t].pc
         case LockRetry(m) => m < |s.locks| && LockMoves(s, r, t, m)
         case LockCall(m) => m < |s.locks| && LockMoves(s, r, t, m)
         case Parked(m) => Moves(s, r, t, LockCall(m))
         case SleepSet => Moves(s, r, t, SleepMarked)
         case SleepMarked => Moves(s, r, t, User)
  {
    assert CurrentRuns(s) && SleepersCount(s) && PcsInRange(s);
    match Current(s).pc
    case LockRetry(m) => TryLockSame(s, m, s.cur);
    case LockCall(m) => TryLockSame(s, m, s.cur);
    case Parked(m) =>
      AtKeeps(s, LockCall(m));
      CallbackSame(At(s, LockCall(m)), s.cur);
    case SleepSet =>
    case SleepMarked =>
      AtKeeps(s, User);
      CallbackSame(At(s, User), s.cur);
  }

  ghost predicate Leaves(s: Sys, r: Sys, t: nat, m: nat, pc: Pc, q: int) {
    && t < |s.tasks| == |r.tasks| && NotAdded(s, r, t, q)
    && r.tasks[t].pc == pc && r.tasks[t].holds == s.tasks[t].holds - {m}
  }

  /** What starting a kernel call does to it. */
  lemma CallMoves(s: Sys, a: Action)
    requires Inv(s) && Enabled(s, a) && a != Timer && a != Continue
    ensures var r, t := Step(s, a), s.cur;
      && |r.tasks| == |s.tasks|
      && match a
         case LockMutex(m) => LockMoves(s, r, t, m)
         case UnlockMutex(m) => Leaves(s, r, t, m, User, -1)
         case Wait(c, m) => Leaves(s, r, t, m, Parked(m), |s.locks| + c)
         case Sleep(_) => Moves(s, r, t, SleepSet)
         case _ => Moves(s, r, t, User)
  {
    hide WakeFirst, WakeAll, TryLock;
    var t := s.cur;
    assert WellFormed(s) && (a.UnlockMutex? ==> WellFormed(Unheld(s, a.m)));
    match a
    case LockMutex(m) => TryLockSame(s, m, t);
    case UnlockMutex(m) => WakeSame(Unheld(s, m), m, t);
    case Wait(c, m) => WaitSame(s, |s.locks| + c, m, t);
    case Signal(c) => WakeSame(s, |s.locks| + c, t);
    case Broadcast(c) => WakeAllSame(s, |s.locks| + c, t);
    case Sleep(_) =>
  }

  // ---------------------------------------------------------------- control is kept

  lemma SameControl(s: Sys, r: Sys, t: nat, line: Line, c: nat)
    requires Control(s, t, line, c) && Same(s, r, t)
    ensures Control(r, t, line, c)
  {
  }

  lemma SameStranger(s: Sys, r: Sys, t: nat)
    requires Stranger(s, t) && Same(s, r, t)
    ensures Stranger(r, t)
  {
  }

  /** The running task is the only one whose control changes. */
  lemma ControlsKept(w: World, a: Action, v: World)
    requires Good(w) && Enabled(w.sys, a) && v.sys == Step(w.sys, a)
    requires w.sys.cur != PRODUCER ==> v.p == w.p
    requires w.sys.cur != CONSUMER ==> v.c == w.c
    requires w.sys.cur == PRODUCER ==> Control(v.sys, PRODUCER, v.p, NOT_FULL)
    requires w.sys.cur == CONSUMER ==> Control(v.sys, CONSUMER, v.c, NOT_EMPTY)
    requires w.sys.cur != PRODUCER && w.sys.cur != CONSUMER ==> Stranger(v.sys, w.sys.cur)
    ensures Controls(v)
  {
    assert |w.sys.tasks| >= 3;
    forall t | 0 <= t < |w.sys.tasks| && t != w.sys.cur ensures Same(w.sys, v.sys, t) {
      OthersSame(w.sys, a, t);
    }
    assert Same(w.sys, v.sys, if w.sys.cur == PRODUCER then CONSUMER else PRODUCER);
    hide Inv, Step, Enabled, Same, Ring, Control, Stranger;
    if w.sys.cur != PRODUCER { SameControl(w.sys, v.sys, PRODUCER, v.p, NOT_FULL); }
    if w.sys.cur != CONSUMER { SameControl(w.sys, v.sys, CONSUMER, v.c, NOT_EMPTY); }
    forall t | 0 <= t < |v.sys.tasks| && t != PRODUCER && t != CONSUMER ensures Stranger(v.sys, t) {
      if t != w.sys.cur { SameStranger(w.sys, v.sys, t); }
    }
  }

  lemma LockControl(s: Sys, r: Sys, t: nat, line: Line, c: nat)
    requires Control(s, t, line, c) && s.tasks[t].pc == User && line == AtEnter && LockMoves(s, r, t, 0)
    ensures Control(r, t, AtTest, c)
  {
  }

  lemma LeaveControl(s: Sys, r: Sys, t: nat, line: Line, c: nat, pc: Pc, q: int)
    requires Control(s, t, line, c) && s.tasks[t].pc == User && Leaves(s, r, t, 0, pc, q)
    requires (line == AtWait && pc == Parked(0) && q == |s.locks| + c) || (line == AtExit && pc == User && q == -1)
    ensures Control(r, t, AfterCall(line), c)
  {
  }

  lemma MoveControl(s: Sys, r: Sys, t: nat, line: Line, c: nat, pc: Pc)
    requires Control(s, t, line, c) && s.tasks[t].pc == User && Moves(s, r, t, pc)
    requires (line == AtNotify && pc == User) || (line == AtSleep && pc == SleepSet)
    ensures Control(r, t, AfterCall(line), c)
  {
  }

  /** The running task's control after a kernel call it starts. */
  lemma CallControl(s: Sys, t: nat, line: Line, c: nat, a: Action)
    requires Inv(s) && Control(s, t, line, c) && t == s.cur && t != 0 && s.tasks[t].pc == User && IsCall(line)
    requires a == Call(line, t == PRODUCER) && Enabled(s, a) && (t == PRODUCER || t == CONSUMER)
    requires c == (if t == PRODUCER then NOT_FULL else NOT_EMPTY)
    ensures Control(Step(s, a), t, AfterCall(line), c)
  {
    CallMoves(s, a);
    var r := Step(s, a);
    assert 0 < |s.locks|;
    hide Inv, Step, Enabled, Control, Leaves, Moves, LockMoves;
    match line
    case AtEnter => LockControl(s, r, t, line, c);
    case AtWait => LeaveControl(s, r, t, line, c, Parked(0), |s.locks| + c);
    case AtExit => LeaveControl(s, r, t, line, c, User, -1);
    case AtNotify => MoveControl(s, r, t, line, c, User);
    case AtSleep => MoveControl(s, r, t, line, c, SleepSet);
  }

  lemma ContinueControl(s: Sys, t: nat, line: Line, c: nat)
    requires Inv(s) && Control(s, t, line, c) && t == s.cur && Enabled(s, Continue)
    ensures Control(Step(s, Continue), t, line, c)
  {
    hide Inv, Step;
    ContinueMoves(s);
  }

  lemma QueuesOfMutexes(s: Sys)
    requires Inv(s)
    ensures PcsInRange(s)
  {
  }

  lemma ContinueStranger(s: Sys)
    requires Inv(s) && Stranger(s, s.cur) && Enabled(s, Continue)
    ensures Stranger(Step(s, Continue), s.cur)
  {
    hide Inv, Step;
    ContinueMoves(s);
    QueuesOfMutexes(s);
  }

  lemma ForeignStranger(s: Sys, a: Action)
    requires Inv(s) && Stranger(s, s.cur) && Enabled(s, a) && Foreign(a)
    ensures Stranger(Step(s, a), s.cur)
  {
    hide Inv, Step;
    CallMoves(s, a);
  }

  // ---------------------------------------------------------------- waiting is kept sensible

  lemma GoodParts(w: World)
    requires Good(w)
    ensures Inv(w.sys) && Controls(w) && Ring(w) && Tested(w) && WaitsMakeSense(w)
    ensures |w.sys.tasks| >= 3 && 0 < |w.sys.locks| && |w.sys.locks| + 2 <= |w.sys.queues|
  {
  }

  lemma SameWaits(w: World, v: World)
    requires Good(w) && |v.sys.tasks| == |w.sys.tasks| && v == w.(sys := v.sys)
    requires NotAdded(w.sys, v.sys, PRODUCER, 0) && NotAdded(w.sys, v.sys, CONSUMER, 0)
    ensures WaitsMakeSense(v)
  {
  }

  /** Only the two themselves can be in the queues of the monitor's conditions. */
  lemma OnlyMember(w: World, q: nat, t: nat)
    requires Good(w) && q < |w.sys.queues|
    requires (q == |w.sys.locks| + NOT_FULL && t == PRODUCER) || (q == |w.sys.locks| + NOT_EMPTY && t == CONSUMER)
    ensures forall u :: u in w.sys.queues[q] ==> u == t
  {
    forall u | u in w.sys.queues[q] ensures u == t {
      assert u == PRODUCER || u == CONSUMER || Stranger(w.sys, u);
    }
  }

  lemma OnePerPlace(s: Sys, q: nat, i: nat, j: nat)
    requires Inv(s) && q < |s.queues| && i < |s.queues[q]| && j < |s.queues[q]| && s.queues[q][i] == s.queues[q][j]
    ensures i == j
  {
  }

  /** Waking the only possible member of a queue leaves it empty. */
  lemma NotifyEmpties(s: Sys, q: nat, t: nat)
    requires Inv(s) && q < |s.queues|
    requires forall u :: u in s.queues[q] ==> u == t
    ensures WakeFirst(s, q).queues[q] == []
  {
    hide Inv;
    if |s.queues[q]| >= 2 {
      assert s.queues[q][0] in s.queues[q] && s.queues[q][1] in s.queues[q];
      OnePerPlace(s, q, 0, 1);
    }
  }

  /** After the notification of one task the other no longer waits. */
  lemma NotifiedIsOut(w: World, producer: bool)
    requires Good(w) && w.sys.cur == (if producer then PRODUCER else CONSUMER) && Current(w.sys).pc == User
    requires Enabled(w.sys, Call(AtNotify, producer))
    ensures var r := Step(w.sys, Call(AtNotify, producer));
      && |r.queues| == |w.sys.queues|
      && r.queues[|w.sys.locks| + (if producer then NOT_EMPTY else NOT_FULL)] == []
  {
    hide Good, Inv, WakeFirst, Control, Stranger;
    GoodParts(w);
    InvBasics(w.sys);
    var q := |w.sys.locks| + (if producer then NOT_EMPTY else NOT_FULL);
    var other := if producer then CONSUMER else PRODUCER;
    OnlyMember(w, q, other);
    NotifyEmpties(w.sys, q, other);
  }

  lemma CallAdds(w: World, producer: bool)
    requires Good(w) && w.sys.cur == (if producer then PRODUCER else CONSUMER) && Current(w.sys).pc == User
    requires var line := if producer then w.p else w.c;
      IsCall(line) && Enabled(w.sys, Call(line, producer))
    ensures var line := if producer then w.p else w.c;
      NotAdded(w.sys, Step(w.sys, Call(line, producer)), w.sys.cur,
        if line == AtWait then |w.sys.locks| + (if producer then NOT_FULL else NOT_EMPTY) else 0)
  {
    hide Inv, Step, Ring, Controls;
    CallMoves(w.sys, Call(if producer then w.p else w.c, producer));
  }

  lemma CallWaits(w: World, v: World, producer: bool)
    requires Good(w) && w.sys.cur == (if producer then PRODUCER else CONSUMER) && Current(w.sys).pc == User
    requires var line := if producer then w.p else w.c;
      && IsCall(line) && Enabled(w.sys, Call(line, producer))
      && v == (if producer then w.(sys := Step(w.sys, Call(line, producer)), p := AfterCall(line))
               else w.(sys := Step(w.sys, Call(line, producer)), c := AfterCall(line)))
    ensures WaitsMakeSense(v)
  {
    hide Good, Inv, Step, Enabled, Ring, Controls;
    GoodParts(w);
    InvBasics(w.sys);
    var line, other := if producer then w.p else w.c, if producer then CONSUMER else PRODUCER;
    OthersSame(w.sys, Call(line, producer), other);
    ProducerNotQueued(w);
    CallAdds(w, producer);
    if line == AtNotify { NotifiedIsOut(w, producer); }
  }

  // ---------------------------------------------------------------- every event keeps it

  lemma SameRing(w: World, v: World)
    requires Ring(w) && Tested(w) && v == w.(sys := v.sys, p := v.p, c := v.c)
    requires v.p == w.p || (IsCall(w.p) && v.p == AfterCall(w.p))
    requires v.c == w.c || (IsCall(w.c) && v.c == AfterCall(w.c))
    ensures Ring(v) && Tested(v)
  {
  }

  lemma KernelControl(w: World, a: Action)
    requires Good(w) && Enabled(w.sys, a)
    requires a == Timer || a == Continue || (w.sys.cur != PRODUCER && w.sys.cur != CONSUMER && Foreign(a))
    ensures var r, t := Step(w.sys, a), w.sys.cur;
      if t == PRODUCER then Control(r, t, w.p, NOT_FULL)
      else if t == CONSUMER then Control(r, t, w.c, NOT_EMPTY)
      else Stranger(r, t)
  {
    var s, r, t := w.sys, Step(w.sys, a), w.sys.cur;
    assert Core(s) && t < |s.tasks| && Inv(s);
    assert if t == PRODUCER then Control(s, t, w.p, NOT_FULL)
      else if t == CONSUMER then Control(s, t, w.c, NOT_EMPTY)
      else Stranger(s, t);
    assert a == Timer ==> r == Callback(s);
    hide Control, Stranger, Inv, Core, Ring, Controls, Step, Callback, Same;
    if a == Timer {
      CallbackSame(s, t);
      if t == PRODUCER { SameControl(s, r, t, w.p, NOT_FULL); }
      else if t == CONSUMER { SameControl(s, r, t, w.c, NOT_EMPTY); }
      else { SameStranger(s, r, t); }
    } else if t == PRODUCER {
      ContinueControl(s, t, w.p, NOT_FULL);
    } else if t == CONSUMER {
      ContinueControl(s, t, w.c, NOT_EMPTY);
    } else if a == Continue {
      ContinueStranger(s);
    } else {
      ForeignStranger(s, a);
    }
  }

  lemma KernelAdds(w: World, a: Action, t: nat)
    requires Good(w) && Enabled(w.sys, a) && (t == PRODUCER || t == CONSUMER)
    requires a == Timer || a == Continue || (w.sys.cur != PRODUCER && w.sys.cur != CONSUMER && Foreign(a))
    ensures |Step(w.sys, a).tasks| == |w.sys.tasks| && NotAdded(w.sys, Step(w.sys, a), t, 0)
  {
    var s := w.sys;
    assert Core(s) && t < |s.tasks|;
    if t != s.cur {
      OthersSame(s, a, t);
    } else if a == Timer {
      CallbackSame(s, t);
    } else {
      ContinueMoves(s);
      assert Control(s, t, if t == PRODUCER then w.p else w.c, if t == PRODUCER then NOT_FULL else NOT_EMPTY);
    }
    hide Inv, Core, Step, Enabled, Ring, Callback;
  }

  lemma KernelKeeps(w: World, a: Action)
    requires Good(w) && Enabled(w.sys, a)
    requires a == Timer || a == Continue || (w.sys.cur != PRODUCER && w.sys.cur != CONSUMER && Foreign(a))
    ensures Good(w.(sys := Step(w.sys, a)))
  {
    var v := w.(sys := Step(w.sys, a));
    var t := w.sys.cur;
    StepKeeps(w.sys, a);
    SameRing(w, v);
    KernelControl(w, a);
    ControlsKept(w, a, v);
    KernelAdds(w, a, PRODUCER);
    KernelAdds(w, a, CONSUMER);
    SameWaits(w, v);
    hide *;
  }

  lemma CallKeeps(w: World, producer: bool)
    requires Good(w) && w.sys.cur == (if producer then PRODUCER else CONSUMER) && Current(w.sys).pc == User
    requires IsCall(if producer then w.p else w.c)
    ensures var line := if producer then w.p else w.c;
      && Enabled(w.sys, Call(line, producer))
      && var r := Step(w.sys, Call(line, producer));
        Good(if producer then w.(sys := r, p := AfterCall(line)) else w.(sys := r, c := AfterCall(line)))
  {
    StatementEnabled(w);
    var line, t := if producer then w.p else w.c, w.sys.cur;
    var a := Call(line, producer);
    var r := Step(w.sys, a);
    var v := if producer then w.(sys := r, p := AfterCall(line)) else w.(sys := r, c := AfterCall(line));
    StepKeeps(w.sys, a);
    SameRing(w, v);
    CallWaits(w, v, producer);
    CallControl(w.sys, t, line, if producer then NOT_FULL else NOT_EMPTY, a);
    hide Inv, Ring, Step, Enabled, Control, WaitsMakeSense, Controls, Tested;
    ControlsKept(w, a, v);
  }

  lemma StatementKeeps(w: World)
    requires Good(w) && Possible(w, Statement)
    ensures Good(Perform(w, Statement))
  {
    hide Good, Step, Enabled, Ring;
    var producer := w.sys.cur == PRODUCER;
    var line := if producer then w.p else w.c;
    if IsCall(line) {
      CallKeeps(w, producer);
    } else if producer {
      ProduceKeeps(w);
    } else {
      ConsumeKeeps(w);
    }
  }

  lemma EventKeeps(w: World, e: Event)
    requires Good(w) && Possible(w, e)
    ensures Good(Perform(w, e))
  {
    hide Good;
    match e
    case Interrupt => KernelKeeps(w, Timer);
    case InKernel => KernelKeeps(w, Continue);
    case Other(a) => KernelKeeps(w, a);
    case Statement => StatementKeeps(w);
  }

  // ---------------------------------------------------------------- what the loops do

  ghost predicate SameLengths(s: Sys, r: Sys) {
    |r.tasks| == |s.tasks| && |r.queues| == |s.queues| && |r.locks| == |s.locks|
  }

  lemma SleepCall(s: Sys, ms: nat)
    requires Inv(s) && Enabled(s, Sleep(ms))
    ensures var r := Step(s, Sleep(ms));
      SameLengths(s, r) && r.tasks[s.cur].pc == SleepSet && r.tasks[s.cur].sleepTicks == (if ms < 20 then 1 else ms / 10)
  {
    hide Inv;
    InvBasics(s);
  }

  lemma EnterCall(s: Sys, m: nat)
    requires Inv(s) && Enabled(s, LockMutex(m))
    ensures var r := Step(s, LockMutex(m));
      SameLengths(s, r) && Tried(s, r, s.cur, m)
  {
    hide Inv;
    InvBasics(s);
    LockTried(s, LockMutex(m), m);
    hide Step;
  }

  lemma WaitCall(s: Sys, c: nat, m: nat)
    requires Inv(s) && Enabled(s, Wait(c, m))
    ensures var r, q := Step(s, Wait(c, m)), |s.locks| + c;
      && SameLengths(s, r) && q < |s.queues| && m < |s.locks|
      && r.locks[m] == Mutex(false, NIL) && r.queues[q] == s.queues[q] + [s.cur] && r.tasks[s.cur].state == Blocked
  {
    hide Inv, Step;
    InvBasics(s);
    WaitIsAtomic(s, c, m);
  }

  lemma NotifyCall(s: Sys, c: nat)
    requires Inv(s) && Enabled(s, Signal(c))
    ensures var r, q := Step(s, Signal(c)), |s.locks| + c;
      && SameLengths(s, r) && q < |s.queues|
      && forall u :: u in s.queues[q] && u == s.queues[q][0] ==> u < |r.tasks| && r.tasks[u].state == Ready
  {
    hide Inv, Step;
    InvBasics(s);
    SignalWakesFirst(s, c);
    DistinctQueue(s, |s.locks| + c);
  }

  lemma ExitCall(s: Sys, m: nat)
    requires Inv(s) && Enabled(s, UnlockMutex(m))
    ensures var r := Step(s, UnlockMutex(m));
      SameLengths(s, r) && m < |s.locks| && r.locks[m] == Mutex(false, NIL)
  {
    hide Inv, Step;
    InvBasics(s);
    UnlockWakesFirst(s, m);
  }

  lemma CallFacts(s: Sys, line: Line, producer: bool)
    requires Inv(s) && Enabled(s, Call(line, producer)) && IsCall(line) && |s.locks| + 2 <= |s.queues|
    ensures var r, t := Step(s, Call(line, producer)), s.cur;
      var wait, notify := |s.locks| + (if producer then NOT_FULL else NOT_EMPTY), |s.locks| + (if producer then NOT_EMPTY else NOT_FULL);
      && |r.tasks| == |s.tasks| && |r.queues| == |s.queues| && |r.locks| == |s.locks|
      && (line == AtSleep ==> r.tasks[t].pc == SleepSet && r.tasks[t].sleepTicks == (if producer then 30 else 80))
      && (line == AtEnter ==> Tried(s, r, t, 0))
      && (line == AtWait ==>
          r.locks[0] == Mutex(false, NIL) && r.queues[wait] == s.queues[wait] + [t] && r.tasks[t].state == Blocked)
      && (line == AtNotify ==>
          forall u :: u in s.queues[notify] && u == s.queues[notify][0] ==> u < |r.tasks| && r.tasks[u].state == Ready)
      && (line == AtExit ==> r.locks[0] == Mutex(false, NIL))
  {
    hide Inv, Step, Tried, Enabled;
    match line
    case AtSleep => SleepCall(s, if producer then 300 else 800);
    case AtEnter => EnterCall(s, 0);
    case AtWait => WaitCall(s, if producer then NOT_FULL else NOT_EMPTY, 0);
    case AtNotify => NotifyCall(s, if producer then NOT_EMPTY else NOT_FULL);
    case AtExit => ExitCall(s, 0);
  }

  /** A notification makes the other task ready if it waits. */
  lemma NotifiedRuns(w: World, producer: bool)
    requires Good(w) && w.sys.cur == (if producer then PRODUCER else CONSUMER) && Current(w.sys).pc == User
    requires Enabled(w.sys, Call(AtNotify, producer))
    ensures var s, r := w.sys, Step(w.sys, Call(AtNotify, producer));
      var q := |s.locks| + (if producer then NOT_EMPTY else NOT_FULL);
      && |r.queues| == |s.queues| > q && r.queues[q] == []
      && forall u :: u in s.queues[q] ==> u < |r.tasks| && r.tasks[u].state == Ready
  {
    hide Inv, Step, Ring, Controls, Enabled, Good;
    GoodParts(w);
    NotifiedIsOut(w, producer);
    var q := |w.sys.locks| + (if producer then NOT_EMPTY else NOT_FULL);
    OnlyMember(w, q, if producer then CONSUMER else PRODUCER);
    assert w.sys.queues[q] != [] ==> w.sys.queues[q][0] in w.sys.queues[q];
    CallFacts(w.sys, AtNotify, producer);
  }

  /** What a statement with a kernel call comes to. The variables of the two tasks stay. */
  lemma CallMeans(w: World)
    requires Good(w) && Possible(w, Statement) && IsCall(if w.sys.cur == PRODUCER then w.p else w.c)
    ensures var r, t, producer := Perform(w, Statement), w.sys.cur, w.sys.cur == PRODUCER;
      var line, wait, notify := if producer then w.p else w.c,
        |w.sys.locks| + (if producer then NOT_FULL else NOT_EMPTY), |w.sys.locks| + (if producer then NOT_EMPTY else NOT_FULL);
      && r == (if producer then w.(sys := r.sys, p := r.p) else w.(sys := r.sys, c := r.c))
      && |r.sys.tasks| == |w.sys.tasks| && |r.sys.queues| == |w.sys.queues| > wait && |w.sys.queues| > notify
      && |r.sys.locks| == |w.sys.locks| > 0
      && match line
         case AtSleep =>
           && (if producer then r.p else r.c) == AtEnter
           && r.sys.tasks[t].pc == SleepSet && r.sys.tasks[t].sleepTicks == (if producer then 30 else 80)
         case AtEnter => (if producer then r.p else r.c) == AtTest && Tried(w.sys, r.sys, t, 0)
         case AtWait =>
           && (if producer then r.p else r.c) == AtTest && r.sys.locks[0] == Mutex(false, NIL)
           && r.sys.queues[wait] == w.sys.queues[wait] + [t] && r.sys.tasks[t].state == Blocked
         case AtNotify =>
           && (if producer then r.p else r.c) == AtExit && r.sys.queues[notify] == []
           && forall u :: u in w.sys.queues[notify] ==> u < |r.sys.tasks| && r.sys.tasks[u].state == Ready
         case _ => (if producer then r.p else r.c) == AtSleep && r.sys.locks[0] == Mutex(false, NIL)
  {
    hide Inv, Ring, Control, Stranger, Tested, WaitsMakeSense, Tried, Step, Enabled;
    GoodParts(w);
    InvBasics(w.sys);
    StatementEnabled(w);
    CallFacts(w.sys, if w.sys.cur == PRODUCER then w.p else w.c, w.sys.cur == PRODUCER);
    if (if w.sys.cur == PRODUCER then w.p else w.c) == AtNotify { NotifiedRuns(w, w.sys.cur == PRODUCER); }
  }

  /** A statement on the task's own and global variables; the next one can follow at once. */
  lemma OwnStatement(w: World)
    requires Good(w) && Possible(w, Statement) && !IsCall(if w.sys.cur == PRODUCER then w.p else w.c)
    ensures |w.buffer| == BUFFER_SIZE && w.tail < BUFFER_SIZE && w.head < BUFFER_SIZE && 0 <= w.count <= BUFFER_SIZE
    ensures var r := Perform(w, Statement);
      && r == (if w.sys.cur == PRODUCER then Produce(w) else Consume(w)) && r.sys == w.sys
      && Good(r) && Possible(r, Statement)
  {
    hide Inv, Ring, Control, Stranger, Tested, WaitsMakeSense;
    RingShape(w);
    EventKeeps(w, Statement);
  }

  ghost predicate PossibleRun(w: World, run: seq<Event>)
    requires Good(w)
    decreases |run|
  {
    run == [] || (Possible(w, run[0]) && (EventKeeps(w, run[0]); PossibleRun(Perform(w, run[0]), run[1..])))
  }

  ghost function RunFrom(w: World, run: seq<Event>): (r: World)
    requires Good(w) && PossibleRun(w, run)
    ensures Good(r)
    decreases |run|
  {
    if run == [] then w else EventKeeps(w, run[0]); RunFrom(Perform(w, run[0]), run[1..])
  }

  function FourStatements(): seq<Event> {
    [Statement, Statement, Statement, Statement]
  }

  lemma FourInARow(w: World, w1: World, w2: World, w3: World)
    requires Good(w) && Possible(w, Statement) && w1 == Perform(w, Statement)
    requires Good(w1) && Possible(w1, Statement) && w2 == Perform(w1, Statement)
    requires Good(w2) && Possible(w2, Statement) && w3 == Perform(w2, Statement)
    requires Good(w3) && Possible(w3, Statement)
    ensures PossibleRun(w, FourStatements()) && RunFrom(w, FourStatements()) == Perform(w3, Statement)
  {
    hide Good, Possible, Perform;
    EventKeeps(w3, Statement);
    assert PossibleRun(w3, [Statement]) && RunFrom(w3, [Statement]) == Perform(w3, Statement);
    assert [Statement, Statement][1..] == [Statement];
    assert [Statement, Statement, Statement][1..] == [Statement, Statement];
    assert FourStatements()[1..] == [Statement, Statement, Statement];
  }

  /** With a free slot, four statements store the item and count it; without one, the test
      leads to the wait. */
  lemma ProducerRound(w: World)
    requires Good(w) && Possible(w, Statement) && w.sys.cur == PRODUCER && w.p == AtTest
    ensures |w.buffer| == BUFFER_SIZE && w.tail < BUFFER_SIZE && w.head < BUFFER_SIZE && 0 <= w.count <= BUFFER_SIZE
    ensures w.count == BUFFER_SIZE ==> Perform(w, Statement) == w.(p := AtWait)
    ensures !(w.count == BUFFER_SIZE) ==>
      && PossibleRun(w, FourStatements()) && RunFrom(w, FourStatements()) == w.(buffer := w.buffer[w.tail := w.item],
           tail := (w.tail + 1) % BUFFER_SIZE, count := w.count + 1, item := w.item + 1, p := AtNotify)
  {
    hide Good, Possible, Perform, PossibleRun, RunFrom, FourStatements;
    OwnStatement(w);
    if !(w.count == BUFFER_SIZE) {
      var w1 := Perform(w, Statement);
      OwnStatement(w1);
      var w2 := Perform(w1, Statement);
      OwnStatement(w2);
      var w3 := Perform(w2, Statement);
      OwnStatement(w3);
      FourInARow(w, w1, w2, w3);
    }
  }

  /** With an item there, four statements take it and count it off; without one, the test
      leads to the wait. */
  lemma ConsumerRound(w: World)
    requires Good(w) && Possible(w, Statement) && w.sys.cur == CONSUMER && w.c == AtTest
    ensures |w.buffer| == BUFFER_SIZE && w.tail < BUFFER_SIZE && w.head < BUFFER_SIZE && 0 <= w.count <= BUFFER_SIZE
    ensures w.count == 0 ==> Perform(w, Statement) == w.(c := AtWait)
    ensures !(w.count == 0) ==>
      && PossibleRun(w, FourStatements()) && RunFrom(w, FourStatements()) == w.(consumed := w.consumed + [w.buffer[w.head]],
           head := (w.head + 1) % BUFFER_SIZE, count := w.count - 1, c := AtNotify)
  {
    hide Good, Possible, Perform, PossibleRun, RunFrom, FourStatements;
    OwnStatement(w);
    if !(w.count == 0) {
      var w1 := Perform(w, Statement);
      OwnStatement(w1);
      var w2 := Perform(w1, Statement);
      OwnStatement(w2);
      var w3 := Perform(w2, Statement);
      OwnStatement(w3);
      FourInARow(w, w1, w2, w3);
    }
  }

  // ---------------------------------------------------------------- whole runs

  /** The ring from head on. */
  function Contents(w: World): seq<int>
    requires |w.buffer| == BUFFER_SIZE
  {
    seq(if w.count < 0 then 0 else w.count, i requires 0 <= i => w.buffer[Slot(w.head + i)])
  }

  /** The items produced, in order: 100, 101, 102, ... */
  function Produced(n: nat): seq<int> {
    seq(n, i => FIRST_ITEM + i)
  }

  /** What is promised whenever the monitor is free. */
  ghost predicate Refined(w: World) {
    && |w.buffer| == BUFFER_SIZE && w.item >= FIRST_ITEM
    && 0 <= w.count <= BUFFER_SIZE && w.tail == (w.head + w.count) % BUFFER_SIZE
    && w.consumed + Contents(w) == Produced(w.item - FIRST_ITEM)
  }

  lemma NobodyInside(w: World)
    requires Good(w) && !w.sys.locks[0].locked
    ensures Lag(w.p) == 0 && Lag(w.c) == 0
  {
    assert OwnersAgree(w.sys);
    OneInside(w);
  }

  lemma SlotAdds(k: int, i: int)
    ensures Slot(Slot(k) + i) == Slot(k + i)
  {
  }

  lemma RingRefined(w: World)
    requires Ring(w) && Lag(w.p) == 0 && Lag(w.c) == 0
    ensures Refined(w)
  {
    var n, k := Stored(w), |w.consumed|;
    var all := w.consumed + Contents(w);
    SlotAdds(k, w.count);
    forall i | k <= i < n ensures all[i] == FIRST_ITEM + i {
      SlotAdds(k, i - k);
      assert w.buffer[Slot(i)] == FIRST_ITEM + i;
    }
  }

  lemma BlockedWhere(w: World, t: nat, line: Line, c: nat)
    requires Good(w) && t < |w.sys.tasks| && w.sys.tasks[t].state == Blocked && Control(w.sys, t, line, c)
    ensures t in w.sys.queues[0] || t in w.sys.queues[|w.sys.locks| + c]
    ensures w.sys.tasks[t].pc != User && line == AtTest && 0 !in w.sys.tasks[t].holds
  {
    assert BlockedIffQueued(w.sys) && Queued(w.sys, t);
    var q :| 0 <= q < |w.sys.queues| && t in w.sys.queues[q];
    assert QueuePcs(w.sys);
  }

  lemma StrangersKeepOff(w: World)
    requires Good(w)
    ensures forall t :: 0 <= t < |w.sys.tasks| && t != PRODUCER && t != CONSUMER ==>
      0 !in w.sys.tasks[t].holds && w.sys.tasks[t].pc != LockRetry(0)
  {
    forall t | 0 <= t < |w.sys.tasks| && t != PRODUCER && t != CONSUMER
      ensures 0 !in w.sys.tasks[t].holds && w.sys.tasks[t].pc != LockRetry(0)
    {
      assert Stranger(w.sys, t);
    }
  }

  lemma LockedMeansHeld(w: World)
    requires Good(w) && w.sys.locks[0].locked
    ensures 0 in w.sys.tasks[PRODUCER].holds || 0 in w.sys.tasks[CONSUMER].holds
  {
    assert OwnersAgree(w.sys) && Controls(w);
    StrangersKeepOff(w);
    assert 0 in w.sys.tasks[w.sys.locks[0].owner].holds;
  }

  /** A task blocked on the monitor's mutex is about to be woken, or the other one is in. */
  lemma NotBothBlocked(w: World)
    requires Good(w)
    ensures !(w.sys.tasks[PRODUCER].state == Blocked && w.sys.tasks[CONSUMER].state == Blocked)
  {
    var s := w.sys;
    assert NoLostWakeup(s) && |s.locks| > 0;
    assert !s.locks[0].locked && s.queues[0] != [] ==> Retrier(s, 0);
    if s.tasks[PRODUCER].state == Blocked && s.tasks[CONSUMER].state == Blocked {
      BlockedWhere(w, PRODUCER, w.p, NOT_FULL);
      BlockedWhere(w, CONSUMER, w.c, NOT_EMPTY);
      StrangersKeepOff(w);
      if s.locks[0].locked {
        LockedMeansHeld(w);
      }
      hide Inv, Ring;
      assert false;
    }
  }

  lemma GoodMeans(w: World)
    requires Good(w)
    ensures |w.sys.locks| > 0 && |w.sys.tasks| >= 3
    ensures w.item >= FIRST_ITEM && w.consumed <= Produced(w.item - FIRST_ITEM)
    ensures 0 <= w.count <= BUFFER_SIZE
    ensures !w.sys.locks[0].locked ==> Refined(w)
    ensures !(w.sys.tasks[PRODUCER].state == Blocked && w.sys.tasks[CONSUMER].state == Blocked)
  {
    OneInside(w);
    if !w.sys.locks[0].locked {
      NobodyInside(w);
      RingRefined(w);
    }
    NotBothBlocked(w);
    hide Inv, Controls;
  }

  /** kmain has created the tasks; buffer holds anything. */
  function Begin(n: nat, mutexes: nat, conds: nat, buffer: seq<int>): World {
    World(Start(n, mutexes, conds), AtSleep, AtSleep, buffer, 0, 0, 0, FIRST_ITEM, [])
  }

  lemma BeginGood(n: nat, mutexes: nat, conds: nat, buffer: seq<int>)
    requires n >= 3 && mutexes >= 1 && conds >= 2 && |buffer| == BUFFER_SIZE
    ensures Good(Begin(n, mutexes, conds, buffer))
  {
    hide Inv;
    StartInv(n, mutexes, conds);
  }

  /** The item in hand is stored, but not yet announced. */
  function Past(line: Line): nat {
    Flag(line == AtIndex || line == AtCount || line == AtNotify)
  }

  /** Event e is a notification by the producer, or by the consumer. */
  ghost predicate IsNotify(w: World, e: Event, producer: bool) {
    e == Statement && (if producer then w.sys.cur == PRODUCER && w.p == AtNotify else w.sys.cur == CONSUMER && w.c == AtNotify)
  }

  ghost function Notified(w: World, run: seq<Event>, producer: bool): nat
    requires Good(w) && PossibleRun(w, run)
    decreases |run|
  {
    if run == [] then 0
    else EventKeeps(w, run[0]); Flag(IsNotify(w, run[0], producer)) + Notified(Perform(w, run[0]), run[1..], producer)
  }

  lemma EventCounts(w: World, e: Event)
    requires Good(w) && Possible(w, e)
    ensures var r := Perform(w, e);
      && Stored(r) - Past(r.p) == Stored(w) - Past(w.p) + Flag(IsNotify(w, e, true))
      && |r.consumed| - Past(r.c) == |w.consumed| - Past(w.c) + Flag(IsNotify(w, e, false))
  {
    hide Inv, Control, Stranger, Tested, WaitsMakeSense, Step, Enabled, Ring;
    RingShape(w);
  }

  lemma {:induction false} RunCounts(w: World, run: seq<Event>)
    requires Good(w) && PossibleRun(w, run)
    ensures var r := RunFrom(w, run);
      && Stored(r) - Past(r.p) == Stored(w) - Past(w.p) + Notified(w, run, true)
      && |r.consumed| - Past(r.c) == |w.consumed| - Past(w.c) + Notified(w, run, false)
    decreases |run|
  {
    hide Good, Possible, Perform, Past, Stored, IsNotify;
    if run != [] {
      EventKeeps(w, run[0]);
      EventCounts(w, run[0]);
      RunCounts(Perform(w, run[0]), run[1..]);
    }
  }

  /** After every run, one item was produced for each notification of the producer, and one
      consumed for each of the consumer, plus the one that each may just be at. */
  lemma EveryRoundCounts(n: nat, mutexes: nat, conds: nat, buffer: seq<int>, run: seq<Event>)
    requires n >= 3 && mutexes >= 1 && conds >= 2 && |buffer| == BUFFER_SIZE
    requires Good(Begin(n, mutexes, conds, buffer)) && PossibleRun(Begin(n, mutexes, conds, buffer), run)
    ensures var b := Begin(n, mutexes, conds, buffer);
      var w := RunFrom(b, run);
      && w.item - FIRST_ITEM == Notified(b, run, true) + Past(w.p)
      && |w.consumed| == Notified(b, run, false) + Past(w.c)
  {
    hide Good, PossibleRun, RunFrom, Notified;
    RunCounts(Begin(n, mutexes, conds, buffer), run);
  }

  /** After every run, however the tasks interleave: what was consumed is a prefix of what
      was produced; whenever the monitor is free, the rest is in the ring, in order; and the
      two tasks are never both blocked. */
  lemma NothingLostOrReordered(n: nat, mutexes: nat, conds: nat, buffer: seq<int>, run: seq<Event>)
    requires n >= 3 && mutexes >= 1 && conds >= 2 && |buffer| == BUFFER_SIZE
    requires Good(Begin(n, mutexes, conds, buffer)) && PossibleRun(Begin(n, mutexes, conds, buffer), run)
    ensures var w := RunFrom(Begin(n, mutexes, conds, buffer), run);
      && |w.sys.locks| > 0 && |w.sys.tasks| >= 3
      && w.item >= FIRST_ITEM && w.consumed <= Produced(w.item - FIRST_ITEM)
      && 0 <= w.count <= BUFFER_SIZE
      && (!w.sys.locks[0].locked ==> Refined(w))
      && !(w.sys.tasks[PRODUCER].state == Blocked && w.sys.tasks[CONSUMER].state == Blocked)
  {
    hide Good, PossibleRun, RunFrom, Begin, Refined;
    GoodMeans(RunFrom(Begin(n, mutexes, conds, buffer), run));
  }
}
