/**
 Whole runs of the scheduler: what holds in every reachable state, and what the history of
 semaphore operations and dispatches must look like.
 */
module SchedRuns {
  import opened Options
  import opened SchedState

  /** The kernel calls. `h` is the processor that makes the call. */
  datatype Op =
    | SpawnOp
    | DispatchOp(h: nat)
    | YieldOp(h: nat)
    | TimerOp(h: nat)
    | SemInitOp(val: int)
    | AcquireOp(h: nat, sem: nat)
    | ReleaseOp(h: nat, sem: nat)

  /**
   The history, per semaphore: initial value, V operations, completed P operations, who has
   blocked and who has been woken, in order; and who entered the ready queue and who was
   dispatched from it, in order.
   */
  datatype Log = Log(
    initial: seq<nat>, released: seq<nat>, acquired: seq<nat>,
    blocked: seq<seq<nat>>, woken: seq<seq<nat>>, enqueued: seq<nat>, dispatched: seq<nat>)

  datatype World = World(s: State, log: Log)

  ghost predicate OnProcessor(s: State, h: nat) {
    h < NCPU == |s.current| && s.current[h].Some?
  }

  /** Calls the kernel does not panic on; an idle processor may pick a process. */
  ghost predicate Enabled(s: State, op: Op) {
    && Sized(s) && !s.halted
    && match op
       case SpawnOp => FirstFree(s.status) < NPROC
       case DispatchOp(h) => h < NCPU && s.current[h] == None
       case YieldOp(h) => OnProcessor(s, h)
       case TimerOp(h) => OnProcessor(s, h) && s.current[h].value < NPROC
       case SemInitOp(val) => s.cnt < SEM_MAX && val >= 0
       case AcquireOp(h, sem) => OnProcessor(s, h) && sem < s.cnt
       case ReleaseOp(h, sem) => OnProcessor(s, h) && sem < s.cnt
  }

  ghost function Step(s: State, op: Op): State
    requires Enabled(s, op)
  {
    match op
    case SpawnOp => Spawn(s)
    case DispatchOp(h) => Schedule(s, h)
    case YieldOp(h) => Yield(s, h)
    case TimerOp(h) => Timer(s, h)
    case SemInitOp(val) => SemInit(s, val)
    case AcquireOp(h, sem) => Acquire(s, h, sem)
    case ReleaseOp(h, sem) => Release(s, sem)
  }

  /** Who enters the ready queue in a step. */
  ghost function Entering(s: State, op: Op): seq<nat>
    requires Enabled(s, op)
  {
    match op
    case SpawnOp => [FirstFree(s.status)]
    case YieldOp(h) => [s.current[h].value]
    case TimerOp(h) => if s.ticks[s.current[h].value] + 1 < TIME_SLICE_LEN then [] else [s.current[h].value]
    case ReleaseOp(h, sem) => if s.sems[sem] < 0 && s.waiting[sem] != [] then [s.waiting[sem][0]] else []
    case _ => []
  }

  /** Whether a step calls schedule. */
  ghost predicate Schedules(s: State, op: Op)
    requires Enabled(s, op)
  {
    match op
    case DispatchOp(h) => true
    case YieldOp(h) => true
    case TimerOp(h) => s.ticks[s.current[h].value] + 1 >= TIME_SLICE_LEN
    case AcquireOp(h, sem) => s.sems[sem] <= 0
    case _ => false
  }

  /** Who is dispatched in a step: the head of the queue, if schedule is called and someone is there. */
  ghost function Leaving(s: State, op: Op): seq<nat>
    requires Enabled(s, op)
  {
    var queue := s.ready + Entering(s, op);
    if Schedules(s, op) && queue != [] then [queue[0]] else []
  }

  ghost function Count(n: seq<nat>, i: nat): seq<nat> {
    if i < |n| then n[i := n[i] + 1] else n
  }

  ghost function Append(q: seq<seq<nat>>, i: nat, p: nat): seq<seq<nat>> {
    if i < |q| then q[i := q[i] + [p]] else q
  }

  /** The history after a step, told from the state before it. */
  ghost function Record(s: State, log: Log, op: Op): Log
    requires Enabled(s, op)
  {
    var l := log.(enqueued := log.enqueued + Entering(s, op), dispatched := log.dispatched + Leaving(s, op));
    match op
    case SemInitOp(val) => l.(initial := Put(l.initial, s.cnt, val))
    case AcquireOp(h, sem) =>
      if s.sems[sem] > 0 then l.(acquired := Count(l.acquired, sem))
      else l.(blocked := Append(l.blocked, sem, s.current[h].value))
    case ReleaseOp(h, sem) =>
      var m := l.(released := Count(l.released, sem));
      if s.sems[sem] < 0 && s.waiting[sem] != [] then
        m.(acquired := Count(m.acquired, sem), woken := Append(m.woken, sem, s.waiting[sem][0]))
      else m
    case _ => l
  }

  ghost function Apply(w: World, op: Op): World
    requires Enabled(w.s, op)
  {
    World(Step(w.s, op), Record(w.s, w.log, op))
  }

  ghost predicate LogSized(log: Log) {
    |log.initial| == |log.released| == |log.acquired| == |log.blocked| == |log.woken| == SEM_MAX
  }

  /** Completed P operations account for everything but the units still on hand. */
  ghost predicate Conserved(s: State, log: Log, v: nat)
    requires Sized(s) && LogSized(log) && v < SEM_MAX
  {
    && log.acquired[v] + (if s.sems[v] > 0 then s.sems[v] else 0) == log.initial[v] + log.released[v]
    && log.blocked[v] == log.woken[v] + s.waiting[v]
    && (v >= s.cnt ==> log.initial[v] == log.released[v] == log.acquired[v] == 0)
  }

  ghost predicate LogOk(s: State, log: Log) {
    && Sized(s) && LogSized(log)
    && log.enqueued == log.dispatched + s.ready
    && forall v :: 0 <= v < SEM_MAX ==> Conserved(s, log, v)
  }

  lemma StepKeepsInv(s: State, op: Op)
    requires Inv(s) && Enabled(s, op)
    ensures Inv(Step(s, op))
  {
    match op
    case SpawnOp => SpawnKeepsInv(s);
    case DispatchOp(h) => ScheduleKeepsInv(s, h);
    case YieldOp(h) => YieldKeepsInv(s, h);
    case TimerOp(h) => TimerKeepsInv(s, h);
    case SemInitOp(val) => SemInitKeepsInvIff(s, val);
    case AcquireOp(h, sem) => AcquireKeepsInv(s, h, sem);
    case ReleaseOp(h, sem) => ReleaseKeepsInv(s, sem);
  }

  /** A queue once schedule has taken its head, if it is called. */
  ghost function Rest(queue: seq<nat>, schedules: bool): seq<nat> {
    if schedules && queue != [] then queue[1..] else queue
  }

  lemma AcquireReady(s: State, h: nat, sem: nat)
    requires Enabled(s, AcquireOp(h, sem))
    ensures Acquire(s, h, sem).ready == Rest(s.ready, s.sems[sem] <= 0)
  {
  }

  lemma ScheduleReady(s: State, h: nat)
    ensures Schedule(s, h).ready == Rest(s.ready, true)
  {
  }

  lemma NobodyEnters(queue: seq<nat>)
    ensures queue + [] == queue
  {
  }

  /** Entrants go to the end of the queue, and then schedule takes the head. */
  lemma ReadyAfter(s: State, op: Op)
    requires Inv(s) && Enabled(s, op)
    ensures Step(s, op).ready == Rest(s.ready + Entering(s, op), Schedules(s, op))
  {
    hide Inv, Spawn, Schedule, Yield, Timer, Acquire, Release, Rest;
    NobodyEnters(s.ready);
    RestIs(s.ready + Entering(s, op));
    match op
    case SpawnOp => SpawnKeepsInv(s);
    case DispatchOp(h) => ScheduleReady(s, h);
    case YieldOp(h) => YieldKeepsInv(s, h);
    case TimerOp(h) => TimerKeepsInv(s, h);
    case SemInitOp(val) =>
    case AcquireOp(h, sem) => AcquireReady(s, h, sem);
    case ReleaseOp(h, sem) => ReleaseReady(s, h, sem);
  }

  lemma RestIs(queue: seq<nat>)
    ensures Rest(queue, false) == queue && (queue != [] ==> Rest(queue, true) == queue[1..])
  {
  }

  lemma ReleaseReady(s: State, h: nat, sem: nat)
    requires Inv(s) && Enabled(s, ReleaseOp(h, sem))
    ensures Release(s, sem).ready == s.ready + Entering(s, ReleaseOp(h, sem))
  {
    hide Inv;
    PopNeverEmpty(s, sem);
    ReleaseKeepsInv(s, sem);
    NobodyEnters(s.ready);
  }

  /** The ready queue is first in, first out: entrants go to the end, and only the head leaves. */
  lemma ReadyIsFifo(s: State, op: Op)
    requires Inv(s) && Enabled(s, op)
    ensures Leaving(s, op) + Step(s, op).ready == s.ready + Entering(s, op)
  {
    hide Inv, Step, Entering, Schedules;
    ReadyAfter(s, op);
    HeadAndRest(s.ready + Entering(s, op), Schedules(s, op));
  }

  lemma HeadAndRest(queue: seq<nat>, schedules: bool)
    ensures (if schedules && queue != [] then [queue[0]] else []) + Rest(queue, schedules) == queue
  {
  }

  /** The one that leaves the queue is the one that runs on the calling processor. */
  lemma LeaverRuns(s: State, op: Op)
    requires Inv(s) && Enabled(s, op) && Leaving(s, op) != []
    ensures var t := Step(s, op); Sized(t) && t.current[op.h] == Some(Leaving(s, op)[0]) && !t.halted
  {
    StepKeepsInv(s, op);
    match op
    case YieldOp(h) => RunningIsIdle(s, h);
    case TimerOp(h) => RunningIsIdle(s, h);
    case AcquireOp(h, sem) => RunningIsIdle(s, h);
    case _ =>
  }

  /** Only semaphore calls touch the semaphores. */
  lemma OthersKeep(s: State, log: Log, op: Op, v: nat)
    requires Inv(s) && Enabled(s, op) && LogOk(s, log) && v < SEM_MAX
    requires !op.SemInitOp? && !op.AcquireOp? && !op.ReleaseOp?
    requires Sized(Step(s, op))
    ensures Conserved(Step(s, op), Record(s, log, op), v)
  {
    assert Conserved(s, log, v);
    var t := Step(s, op);
    assert t.sems == s.sems && t.waiting == s.waiting && t.cnt == s.cnt;
  }

  lemma SemInitRecord(s: State, log: Log, val: int, v: nat)
    requires Inv(s) && Enabled(s, SemInitOp(val)) && LogOk(s, log) && v < SEM_MAX
    ensures Conserved(SemInit(s, val), Record(s, log, SemInitOp(val)), v)
  {
    assert Conserved(s, log, v);
  }

  lemma AcquireRecord(s: State, log: Log, h: nat, sem: nat, v: nat)
    requires Inv(s) && Enabled(s, AcquireOp(h, sem)) && LogOk(s, log) && v < SEM_MAX
    requires Sized(Acquire(s, h, sem))
    ensures Conserved(Acquire(s, h, sem), Record(s, log, AcquireOp(h, sem)), v)
  {
    assert Conserved(s, log, v);
    RunningIsIdle(s, h);
    var t, p := Acquire(s, h, sem), s.current[h].value;
    if s.sems[sem] <= 0 {
      assert t.sems == s.sems[sem := s.sems[sem] - 1] && t.waiting == s.waiting[sem := s.waiting[sem] + [p]];
      assert log.woken[v] + s.waiting[v] + [p] == log.woken[v] + (s.waiting[v] + [p]);
    }
  }

  lemma ReleaseRecord(s: State, log: Log, h: nat, sem: nat, v: nat)
    requires Inv(s) && Enabled(s, ReleaseOp(h, sem)) && LogOk(s, log) && v < SEM_MAX
    requires Sized(Release(s, sem))
    ensures Conserved(Release(s, sem), Record(s, log, ReleaseOp(h, sem)), v)
  {
    assert Conserved(s, log, v);
    PopNeverEmpty(s, sem);
    var t := Release(s, sem);
    if s.sems[sem] < 0 {
      var q := s.waiting[sem];
      assert t.sems == s.sems[sem := s.sems[sem] + 1] && t.waiting == s.waiting[sem := q[1..]];
      assert q == [q[0]] + q[1..];
      assert log.woken[sem] + q == log.woken[sem] + [q[0]] + q[1..];
    }
  }

  lemma StepKeepsLog(s: State, log: Log, op: Op)
    requires Inv(s) && Enabled(s, op) && LogOk(s, log)
    ensures LogOk(Step(s, op), Record(s, log, op))
  {
    StepKeepsInv(s, op);
    forall v | 0 <= v < SEM_MAX
      ensures Conserved(Step(s, op), Record(s, log, op), v)
    {
      match op
      case SemInitOp(val) => SemInitRecord(s, log, val, v);
      case AcquireOp(h, sem) => AcquireRecord(s, log, h, sem, v);
      case ReleaseOp(h, sem) => ReleaseRecord(s, log, h, sem, v);
      case _ => OthersKeep(s, log, op, v);
    }
    DispatchesKept(s, log, op);
  }

  lemma DispatchesKept(s: State, log: Log, op: Op)
    requires Inv(s) && Enabled(s, op) && log.enqueued == log.dispatched + s.ready
    ensures var l := Record(s, log, op); l.enqueued == l.dispatched + Step(s, op).ready
  {
    ReadyIsFifo(s, op);
    Requeue(log.dispatched, s.ready, Entering(s, op), Leaving(s, op), Step(s, op).ready);
    RecordQueues(s, log, op);
  }

  lemma RecordQueues(s: State, log: Log, op: Op)
    requires Enabled(s, op)
    ensures Record(s, log, op).enqueued == log.enqueued + Entering(s, op)
    ensures Record(s, log, op).dispatched == log.dispatched + Leaving(s, op)
  {
  }

  lemma Requeue(done: seq<nat>, queue: seq<nat>, entering: seq<nat>, leaving: seq<nat>, rest: seq<nat>)
    requires leaving + rest == queue + entering
    ensures done + queue + entering == done + leaving + rest
  {
    assert done + queue + entering == done + (queue + entering);
    assert done + leaving + rest == done + (leaving + rest);
  }

  ghost function NoLog(): Log {
    var zeros := seq(SEM_MAX, _ => 0);
    var nobody := seq(SEM_MAX, _ => []);
    Log(zeros, zeros, zeros, nobody, nobody, [], [])
  }

  ghost predicate AllEnabled(w: World, ops: seq<Op>)
    decreases |ops|
  {
    ops == [] || (Enabled(w.s, ops[0]) && AllEnabled(Apply(w, ops[0]), ops[1..]))
  }

  ghost function Run(w: World, ops: seq<Op>): World
    requires AllEnabled(w, ops)
    decreases |ops|
  {
    if ops == [] then w else Run(Apply(w, ops[0]), ops[1..])
  }

  lemma {:induction false} RunKeeps(w: World, ops: seq<Op>)
    requires Inv(w.s) && LogOk(w.s, w.log) && AllEnabled(w, ops)
    ensures Inv(Run(w, ops).s) && LogOk(Run(w, ops).s, Run(w, ops).log)
    decreases |ops|
  {
    if ops != [] {
      StepKeepsInv(w.s, ops[0]);
      StepKeepsLog(w.s, w.log, ops[0]);
      RunKeeps(Apply(w, ops[0]), ops[1..]);
    }
  }

  /** Every run from boot: queues are sound, and each shortfall is the length of its waiting queue. */
  lemma EveryRunIsSound(ops: seq<Op>)
    requires AllEnabled(World(Boot(), NoLog()), ops)
    ensures var w := Run(World(Boot(), NoLog()), ops); Inv(w.s) && LogOk(w.s, w.log)
  {
    hide Inv, LogOk, Run, AllEnabled;
    BootKeeps();
    RunKeeps(World(Boot(), NoLog()), ops);
  }

  lemma BootKeeps()
    ensures Inv(Boot()) && LogOk(Boot(), NoLog())
  {
  }

  /**
   Only the processor that schedules gets another process, the head of the queue. With nobody in the queue the machine
   stops, and only then.
   */
  lemma RunsAfter(s: State, op: Op)
    requires Inv(s) && Enabled(s, op)
    ensures Step(s, op).halted <==> Schedules(s, op) && s.ready + Entering(s, op) == []
    ensures Step(s, op).current == if Leaving(s, op) == [] then s.current
      else s.current[op.h := Some(Leaving(s, op)[0])]
  {
    hide Inv, Schedule, Yield, Push;
    NobodyEnters(s.ready);
    match op
    case DispatchOp(h) => ScheduleRuns(s, h);
    case YieldOp(h) => YieldRuns(s, h);
    case TimerOp(h) => TimerRuns(s, h);
    case AcquireOp(h, sem) => AcquireRuns(s, h, sem);
    case _ =>
  }

  lemma ScheduleRuns(s: State, h: nat)
    requires h < |s.current|
    ensures var t := Schedule(s, h);
      if s.ready == [] then t.halted && t.current == s.current
      else t.halted == s.halted && t.current == s.current[h := Some(s.ready[0])]
  {
  }

  lemma YieldRuns(s: State, h: nat)
    requires Inv(s) && Sized(s) && !s.halted && h < NCPU && s.current[h].Some?
    ensures !Yield(s, h).halted
    ensures Yield(s, h).current == s.current[h := Some((s.ready + [s.current[h].value])[0])]
  {
    hide Schedule, Inv;
    var p := s.current[h].value;
    RunningIsIdle(s, h);
    ScheduleRuns(Insert(s.(status := Put(s.status, p, READY)), p), h);
  }

  lemma TimerRuns(s: State, h: nat)
    requires Inv(s) && Enabled(s, TimerOp(h))
    ensures !Timer(s, h).halted
    ensures var p := s.current[h].value;
      Timer(s, h).current ==
      if s.ticks[p] + 1 < TIME_SLICE_LEN then s.current else s.current[h := Some((s.ready + [p])[0])]
  {
    hide Yield, Inv;
    var p := s.current[h].value;
    TicksDoNotMatter(s, p);
    if s.ticks[p] + 1 >= TIME_SLICE_LEN { YieldRuns(s.(ticks := s.ticks[p := 0]), h); }
  }

  lemma TicksDoNotMatter(s: State, p: nat)
    requires Inv(s) && p < |s.ticks|
    ensures Inv(s.(ticks := s.ticks[p := 0]))
  {
  }

  lemma AcquireRuns(s: State, h: nat, sem: nat)
    requires Enabled(s, AcquireOp(h, sem))
    ensures var t := Acquire(s, h, sem);
      if s.sems[sem] > 0 then !t.halted && t.current == s.current
      else if s.ready == [] then t.halted && t.current == s.current
      else !t.halted && t.current == s.current[h := Some(s.ready[0])]
  {
    hide Schedule;
    var t := s.(sems := s.sems[sem := s.sems[sem] - 1]);
    ScheduleRuns(Push(t, s.current[h].value, sem), h);
  }

  // ---- time slices ----

  /** The step is a timer interrupt while `p` runs on the interrupted processor. */
  ghost predicate Hits(s: State, op: Op, p: nat)
    requires Enabled(s, op)
  {
    op.TimerOp? && s.current[op.h] == Some(p)
  }

  /** Such an interrupt that puts `p` into the ready queue. */
  ghost predicate Preempts(s: State, op: Op, p: nat)
    requires Enabled(s, op)
  {
    Hits(s, op, p) && Entering(s, op) == [p]
  }

  ghost function HitCount(w: World, ops: seq<Op>, p: nat): nat
    requires AllEnabled(w, ops)
    decreases |ops|
  {
    if ops == [] then 0 else (if Hits(w.s, ops[0], p) then 1 else 0) + HitCount(Apply(w, ops[0]), ops[1..], p)
  }

  ghost function PreemptCount(w: World, ops: seq<Op>, p: nat): nat
    requires AllEnabled(w, ops)
    decreases |ops|
  {
    if ops == [] then 0 else (if Preempts(w.s, ops[0], p) then 1 else 0) + PreemptCount(Apply(w, ops[0]), ops[1..], p)
  }

  /** An interrupt counts one tick of `p`'s slice, or ends the slice, and then the next one starts from nothing. */
  lemma TickStep(s: State, op: Op, p: nat)
    requires Inv(s) && Enabled(s, op) && p < NPROC && s.ticks[p] < TIME_SLICE_LEN
    ensures Sized(Step(s, op)) && Step(s, op).ticks[p] < TIME_SLICE_LEN
    ensures Step(s, op).ticks[p] + (if Preempts(s, op, p) then TIME_SLICE_LEN else 0)
         == s.ticks[p] + (if Hits(s, op, p) then 1 else 0)
  {
    StepSized(s, op);
    TicksAfter(s, op, p);
  }

  lemma StepSized(s: State, op: Op)
    requires Inv(s) && Enabled(s, op)
    ensures Sized(Step(s, op))
  {
    hide Step, Enabled;
    StepKeepsInv(s, op);
  }

  lemma TicksAfter(s: State, op: Op, p: nat)
    requires Enabled(s, op) && p < NPROC && Sized(Step(s, op))
    ensures Step(s, op).ticks[p] ==
      if !Hits(s, op, p) then s.ticks[p] else if s.ticks[p] + 1 < TIME_SLICE_LEN then s.ticks[p] + 1 else 0
  {
  }

  lemma {:induction false} RunTicks(w: World, ops: seq<Op>, p: nat)
    requires Inv(w.s) && AllEnabled(w, ops) && p < NPROC && w.s.ticks[p] < TIME_SLICE_LEN
    ensures Sized(Run(w, ops).s) && Run(w, ops).s.ticks[p] < TIME_SLICE_LEN
    ensures Run(w, ops).s.ticks[p] + TIME_SLICE_LEN * PreemptCount(w, ops, p) == w.s.ticks[p] + HitCount(w, ops, p)
    decreases |ops|
  {
    if ops != [] {
      hide Inv, Step, Enabled, Record;
      StepKeepsInv(w.s, ops[0]);
      TickStep(w.s, ops[0], p);
      RunTicks(Apply(w, ops[0]), ops[1..], p);
    }
  }

  /**
   In every run, of the timer interrupts that meet a process running, every TIME_SLICE_LEN-th sends it to the ready
   queue and no other does.
   */
  lemma PreemptedInTurn(ops: seq<Op>, p: nat)
    requires AllEnabled(World(Boot(), NoLog()), ops) && p < NPROC
    ensures var w := World(Boot(), NoLog());
      && PreemptCount(w, ops, p) == HitCount(w, ops, p) / TIME_SLICE_LEN
      && Sized(Run(w, ops).s) && Run(w, ops).s.ticks[p] == HitCount(w, ops, p) % TIME_SLICE_LEN
  {
    hide Run, AllEnabled, HitCount, PreemptCount;
    BootKeeps();
    BootTicks(p);
    RunTicks(World(Boot(), NoLog()), ops, p);
  }

  lemma BootTicks(p: nat)
    requires p < NPROC
    ensures Sized(Boot()) && Boot().ticks[p] == 0
  {
  }

  /**
   Any TIME_SLICE_LEN interrupts that meet `p` running, from any sound state on, send it to the queue exactly once.
   */
  lemma OncePerSlice(w: World, ops: seq<Op>, p: nat)
    requires Inv(w.s) && AllEnabled(w, ops) && p < NPROC && w.s.ticks[p] < TIME_SLICE_LEN
    requires HitCount(w, ops, p) == TIME_SLICE_LEN
    ensures PreemptCount(w, ops, p) == 1 && Sized(Run(w, ops).s) && Run(w, ops).s.ticks[p] == w.s.ticks[p]
  {
    RunTicks(w, ops, p);
  }

  /** Completed P operations never exceed the initial value plus the V operations. */
  lemma NeverOverAcquired(ops: seq<Op>, v: nat)
    requires AllEnabled(World(Boot(), NoLog()), ops) && v < SEM_MAX
    ensures var w := Run(World(Boot(), NoLog()), ops);
      LogSized(w.log) && w.log.acquired[v] <= w.log.initial[v] + w.log.released[v]
  {
    EveryRunIsSound(ops);
    var w := Run(World(Boot(), NoLog()), ops);
    assert Conserved(w.s, w.log, v);
  }

  /** Those who have been woken are the first who blocked, in that order; the rest still wait, in that order. */
  lemma WokenInOrder(ops: seq<Op>, v: nat)
    requires AllEnabled(World(Boot(), NoLog()), ops) && v < SEM_MAX
    ensures var w := Run(World(Boot(), NoLog()), ops);
      LogSized(w.log) && Sized(w.s) && w.log.blocked[v] == w.log.woken[v] + w.s.waiting[v]
  {
    EveryRunIsSound(ops);
    var w := Run(World(Boot(), NoLog()), ops);
    assert Conserved(w.s, w.log, v);
  }

  lemma {:induction false} HistoryGrows(w: World, ops: seq<Op>)
    requires AllEnabled(w, ops)
    ensures w.log.enqueued <= Run(w, ops).log.enqueued && w.log.dispatched <= Run(w, ops).log.dispatched
    decreases |ops|
  {
    if ops != [] {
      HistoryGrows(Apply(w, ops[0]), ops[1..]);
    }
  }

  /** The history of the ready queue, before and after, is what has left it and what is in it. */
  lemma {:induction false} FifoHistory(w: World, ops: seq<Op>)
    requires Inv(w.s) && LogOk(w.s, w.log) && AllEnabled(w, ops)
    ensures w.log.dispatched <= Run(w, ops).log.dispatched
    ensures w.log.dispatched + w.s.ready <= Run(w, ops).log.dispatched + Run(w, ops).s.ready
  {
    RunKeeps(w, ops);
    HistoryGrows(w, ops);
  }

  /** A process at position k of the ready queue is the one that the (k+1)-th dispatch from here picks. */
  lemma {:induction false} DispatchedInTurn(w: World, ops: seq<Op>, k: nat)
    requires Inv(w.s) && LogOk(w.s, w.log) && AllEnabled(w, ops)
    requires k < |w.s.ready| && |Run(w, ops).log.dispatched| > |w.log.dispatched| + k
    ensures Run(w, ops).log.dispatched[|w.log.dispatched| + k] == w.s.ready[k]
  {
    FifoHistory(w, ops);
    var last := Run(w, ops);
    SplitAt(w.log.dispatched, w.s.ready, last.log.dispatched, last.s.ready, k);
  }

  /** Until then it stays in the queue, k dispatches nearer the head. */
  lemma {:induction false} WaitsInTurn(w: World, ops: seq<Op>, k: nat)
    requires Inv(w.s) && LogOk(w.s, w.log) && AllEnabled(w, ops)
    requires k < |w.s.ready| && |Run(w, ops).log.dispatched| <= |w.log.dispatched| + k
    ensures var moved := |Run(w, ops).log.dispatched| - |w.log.dispatched|;
      0 <= moved <= k && k - moved < |Run(w, ops).s.ready| && Run(w, ops).s.ready[k - moved] == w.s.ready[k]
  {
    FifoHistory(w, ops);
    var last := Run(w, ops);
    SplitAt(w.log.dispatched, w.s.ready, last.log.dispatched, last.s.ready, k);
  }

  /** Two ways to cut one history into what has left and what is still there. */
  lemma SplitAt(left: seq<nat>, here: seq<nat>, left': seq<nat>, here': seq<nat>, k: nat)
    requires left + here <= left' + here' && left <= left' && k < |here|
    ensures |left'| > |left| + k ==> left'[|left| + k] == here[k]
    ensures |left'| <= |left| + k ==> |left| + k - |left'| < |here'| && here'[|left| + k - |left'|] == here[k]
  {
    assert (left + here)[|left| + k] == here[k] == (left' + here')[|left| + k];
  }
}
