/**
 The scheduler and semaphores of kernel/sched.c, with round-robin preemption from
 kernel/strap.c, as a machine whose steps are whole kernel calls. Processes are indices
 into procs; queues are the sequences that the queue_next links spell out.
 */
module SchedState {
  import opened Options

  const NPROC := 32
  const NCPU := 2
  const SEM_MAX := 100
  const TIME_SLICE_LEN := 2

  datatype Status = FREE | READY | RUNNING | BLOCKED | ZOMBIE

  /** `halted` once schedule has found no ready process: it shuts down or panics and never returns. */
  datatype State = State(
    status: seq<Status>, ticks: seq<nat>, current: seq<Option<nat>>,
    ready: seq<nat>, waiting: seq<seq<nat>>, sems: seq<int>, cnt: nat, halted: bool)

  ghost predicate Sized(s: State) {
    && |s.status| == |s.ticks| == NPROC && |s.current| == NCPU
    && |s.waiting| == |s.sems| == SEM_MAX && s.cnt <= SEM_MAX
  }

  ghost predicate NoDuplicates(q: seq<nat>) {
    forall i, j :: 0 <= i < j < |q| ==> q[i] != q[j]
  }

  /** Everyone in the queue has this status. */
  ghost predicate AllAre(status: seq<Status>, q: seq<nat>, what: Status) {
    forall i :: 0 <= i < |q| ==> q[i] < |status| && status[q[i]] == what
  }

  ghost function Shortfall(value: int): nat {
    if value < 0 then -value else 0
  }

  ghost predicate WaitingOk(status: seq<Status>, q: seq<nat>, value: int) {
    NoDuplicates(q) && AllAre(status, q, BLOCKED) && |q| == Shortfall(value)
  }

  ghost predicate Disjoint(p: seq<nat>, q: seq<nat>) {
    forall i, j :: 0 <= i < |p| && 0 <= j < |q| ==> p[i] != q[j]
  }

  ghost predicate QueuesOk(s: State) {
    && Sized(s)
    && NoDuplicates(s.ready) && AllAre(s.status, s.ready, READY)
    && (forall w :: 0 <= w < SEM_MAX ==> WaitingOk(s.status, s.waiting[w], s.sems[w]))
    && (forall w :: s.cnt <= w < SEM_MAX ==> s.sems[w] == 0)
    && (forall v, w :: 0 <= v < w < SEM_MAX ==> Disjoint(s.waiting[v], s.waiting[w]))
  }

  /** The processes on the processors other than `skip` run, each on one processor. */
  ghost predicate RunningOk(s: State, skip: nat)
    requires Sized(s)
  {
    && (forall g :: 0 <= g < NCPU && g != skip && s.current[g].Some? ==>
          s.current[g].value < NPROC && s.status[s.current[g].value] == RUNNING)
    && (forall g, h :: 0 <= g < h < NCPU && g != skip && h != skip && s.current[g].Some? ==>
      s.current[g] != s.current[h])
  }

  ghost predicate Inv(s: State) {
    QueuesOk(s) && (!s.halted ==> RunningOk(s, NCPU))
  }

  /** init_proc_pool and zeroed statics. */
  ghost function Boot(): State {
    State(seq(NPROC, _ => FREE), seq(NPROC, _ => 0), seq(NCPU, _ => None), [], seq(SEM_MAX, _ => []),
          seq(SEM_MAX, _ => 0), 0, false)
  }

  /** In no queue. */
  ghost predicate Idle(s: State, p: nat)
    requires Sized(s)
  {
    p < NPROC && p !in s.ready && forall w :: 0 <= w < SEM_MAX ==> p !in s.waiting[w]
  }

  ghost function Put<T>(q: seq<T>, i: nat, x: T): seq<T> {
    if i < |q| then q[i := x] else q
  }

  /** insert_to_ready_queue */
  ghost function Insert(s: State, p: nat): State {
    if p in s.ready then s else s.(ready := s.ready + [p], status := Put(s.status, p, READY))
  }

  /** schedule, on processor `h` */
  ghost function Schedule(s: State, h: nat): State {
    if s.ready == [] then s.(halted := true)
    else s.(current := Put(s.current, h, Some(s.ready[0])), status := Put(s.status, s.ready[0], RUNNING),
            ready := s.ready[1..])
  }

  /** waiting_queue_push */
  ghost function Push(s: State, p: nat, sem: nat): State
    requires sem < |s.waiting|
  {
    if p in s.waiting[sem] then s
    else s.(waiting := s.waiting[sem := s.waiting[sem] + [p]], status := Put(s.status, p, BLOCKED))
  }

  /** A process that gives up processor `h` but stays runnable: yield, and the end of a time slice. */
  ghost function Yield(s: State, h: nat): State
    requires h < |s.current| && s.current[h].Some?
  {
    var p := s.current[h].value;
    Schedule(Insert(s.(status := Put(s.status, p, READY)), p), h)
  }

  /** rrsched */
  ghost function Timer(s: State, h: nat): State
    requires h < |s.current| && s.current[h].Some? && s.current[h].value < |s.ticks|
  {
    var p := s.current[h].value;
    if s.ticks[p] + 1 < TIME_SLICE_LEN then s.(ticks := s.ticks[p := s.ticks[p] + 1])
    else Yield(s.(ticks := s.ticks[p := 0]), h)
  }

  /** sem_init */
  ghost function SemInit(s: State, val: int): State
    requires s.cnt < |s.sems|
  {
    s.(sems := s.sems[s.cnt := val], cnt := s.cnt + 1)
  }

  /** __acquire: one less, and wait if that is below zero. */
  ghost function Acquire(s: State, h: nat, sem: nat): State
    requires h < |s.current| && s.current[h].Some? && sem < |s.sems| == |s.waiting|
  {
    var t := s.(sems := s.sems[sem := s.sems[sem] - 1]);
    if t.sems[sem] < 0 then Schedule(Push(t, s.current[h].value, sem), h) else t
  }

  /** __release: one more, and the first waiter becomes ready if there was a shortfall. */
  ghost function Release(s: State, sem: nat): State
    requires sem < |s.sems| == |s.waiting|
  {
    var t := s.(sems := s.sems[sem := s.sems[sem] + 1]);
    if t.sems[sem] > 0 || t.waiting[sem] == [] then t
    else
      var p := t.waiting[sem][0];
      Insert(t.(waiting := t.waiting[sem := t.waiting[sem][1..]], status := Put(t.status, p, READY)), p)
  }

  /** alloc_process: the first FREE slot. */
  ghost function FirstFree(status: seq<Status>): (i: nat)
    ensures i <= |status|
    ensures i < |status| ==> status[i] == FREE
    ensures forall j :: 0 <= j < i ==> status[j] != FREE
  {
    if status == [] || status[0] == FREE then 0
    else
      var i := FirstFree(status[1..]);
      assert forall j :: 1 <= j <= i ==> status[j] == status[1..][j - 1];
      i + 1
  }

  /** The end of fork, and of loading the first program: a new process, ready. */
  ghost function Spawn(s: State): State {
    var p := FirstFree(s.status);
    Insert(s.(status := Put(s.status, p, READY)), p)
  }

  /** The status of a process in no queue is its own affair. */
  lemma SetStatus(s: State, p: nat, x: Status)
    requires QueuesOk(s) && Idle(s, p)
    ensures QueuesOk(s.(status := s.status[p := x]))
  {
    var status := s.status[p := x];
    forall w | 0 <= w < SEM_MAX
      ensures WaitingOk(status, s.waiting[w], s.sems[w])
    {
      assert WaitingOk(s.status, s.waiting[w], s.sems[w]);
      assert forall i :: 0 <= i < |s.waiting[w]| ==> s.waiting[w][i] in s.waiting[w];
    }
    assert forall i :: 0 <= i < |s.ready| ==> s.ready[i] in s.ready;
  }

  lemma InsertKeepsQueues(s: State, p: nat)
    requires QueuesOk(s) && Idle(s, p)
    ensures QueuesOk(Insert(s, p))
    ensures Insert(s, p).ready == s.ready + [p]
  {
    SetStatus(s, p, READY);
    assert forall i :: 0 <= i < |s.ready| ==> s.ready[i] in s.ready;
  }

  /** The one that schedule picks is READY, as it asserts, and then in no queue. */
  lemma ScheduleKeepsQueues(s: State, h: nat)
    requires QueuesOk(s) && h < NCPU
    ensures QueuesOk(Schedule(s, h))
    ensures s.ready != [] ==> s.status[s.ready[0]] == READY && Idle(Schedule(s, h), s.ready[0])
  {
    if s.ready != [] {
      var p := s.ready[0];
      var t := s.(ready := s.ready[1..]);
      forall w | 0 <= w < SEM_MAX
        ensures p !in s.waiting[w]
      {
        assert WaitingOk(s.status, s.waiting[w], s.sems[w]);
      }
      assert QueuesOk(t) && Idle(t, p);
      SetStatus(t, p, RUNNING);
      assert QueuesOk(t.(status := t.status[p := RUNNING]));
    }
  }

  /** A process on a processor is in no queue. */
  lemma RunningIsIdle(s: State, h: nat)
    requires Inv(s) && !s.halted && h < NCPU && s.current[h].Some?
    ensures Idle(s, s.current[h].value)
  {
    var p := s.current[h].value;
    forall w | 0 <= w < SEM_MAX
      ensures p !in s.waiting[w]
    {
      assert WaitingOk(s.status, s.waiting[w], s.sems[w]);
    }
  }

  /** The next process takes over processor `h`. */
  lemma ScheduleKeepsInv(s: State, h: nat)
    requires QueuesOk(s) && RunningOk(s, h) && h < NCPU
    ensures Inv(Schedule(s, h))
  {
    ScheduleKeepsQueues(s, h);
  }

  lemma YieldKeepsInv(s: State, h: nat)
    requires Inv(s) && !s.halted && h < NCPU && s.current[h].Some?
    ensures Inv(Yield(s, h))
    ensures Yield(s, h).ready == (s.ready + [s.current[h].value])[1..]
  {
    var p := s.current[h].value;
    RunningIsIdle(s, h);
    SetStatus(s, p, READY);
    var t := s.(status := s.status[p := READY]);
    InsertKeepsQueues(t, p);
    assert RunningOk(Insert(t, p), h);
    ScheduleKeepsInv(Insert(t, p), h);
  }

  lemma TimerKeepsInv(s: State, h: nat)
    requires Inv(s) && !s.halted && h < NCPU && s.current[h].Some?
    ensures Inv(Timer(s, h))
    ensures var p := s.current[h].value;
      p < NPROC && Timer(s, h).ready ==
      if s.ticks[p] + 1 < TIME_SLICE_LEN then s.ready else (s.ready + [p])[1..]
  {
    var p := s.current[h].value;
    var t := s.(ticks := s.ticks[p := 0]);
    assert Inv(t);
    YieldKeepsInv(t, h);
  }

  /** sem_init keeps the books exactly when the initial value is not negative. */
  lemma SemInitKeepsInvIff(s: State, val: int)
    requires Inv(s) && s.cnt < SEM_MAX
    ensures Inv(SemInit(s, val)) <==> val >= 0
  {
    var t := SemInit(s, val);
    var w := s.cnt;
    assert WaitingOk(s.status, s.waiting[w], 0);
    if val < 0 {
      assert !WaitingOk(t.status, t.waiting[w], t.sems[w]);
    } else {
      forall v | 0 <= v < SEM_MAX
        ensures WaitingOk(t.status, t.waiting[v], t.sems[v])
      {
        assert WaitingOk(s.status, s.waiting[v], s.sems[v]);
      }
    }
  }

  /** A process in no queue joins the end of a waiting queue. */
  lemma BlockKeepsQueues(s: State, p: nat, sem: nat)
    requires QueuesOk(s) && Idle(s, p) && sem < s.cnt && s.sems[sem] <= 0
    ensures QueuesOk(Push(s.(sems := s.sems[sem := s.sems[sem] - 1]), p, sem))
  {
    SetStatus(s, p, BLOCKED);
    var u := s.(status := s.status[p := BLOCKED]);
    var t := Push(s.(sems := s.sems[sem := s.sems[sem] - 1]), p, sem);
    forall w | 0 <= w < SEM_MAX
      ensures WaitingOk(t.status, t.waiting[w], t.sems[w])
    {
      assert WaitingOk(u.status, u.waiting[w], u.sems[w]);
      assert forall i :: 0 <= i < |u.waiting[w]| ==> u.waiting[w][i] in u.waiting[w];
    }
    assert forall w, i :: 0 <= w < SEM_MAX && 0 <= i < |s.waiting[w]| ==> s.waiting[w][i] in s.waiting[w];
  }

  lemma AcquireKeepsInv(s: State, h: nat, sem: nat)
    requires Inv(s) && !s.halted && h < NCPU && s.current[h].Some? && sem < s.cnt
    ensures Inv(Acquire(s, h, sem))
  {
    var p := s.current[h].value;
    var t := s.(sems := s.sems[sem := s.sems[sem] - 1]);
    RunningIsIdle(s, h);
    if t.sems[sem] < 0 {
      BlockKeepsQueues(s, p, sem);
      assert RunningOk(Push(t, p, sem), h);
      ScheduleKeepsInv(Push(t, p, sem), h);
    } else {
      forall w | 0 <= w < SEM_MAX
        ensures WaitingOk(t.status, t.waiting[w], t.sems[w])
      {
        assert WaitingOk(s.status, s.waiting[w], s.sems[w]);
      }
    }
  }

  /** waiting_queue_pop is only called on a queue with someone in it. */
  lemma PopNeverEmpty(s: State, sem: nat)
    requires Inv(s) && sem < s.cnt
    ensures s.sems[sem] + 1 <= 0 <==> s.waiting[sem] != []
  {
    assert WaitingOk(s.status, s.waiting[sem], s.sems[sem]);
  }

  lemma PopKeepsQueues(s: State, sem: nat)
    requires QueuesOk(s) && sem < s.cnt && s.waiting[sem] != []
    ensures var t := s.(sems := s.sems[sem := s.sems[sem] + 1], waiting := s.waiting[sem := s.waiting[sem][1..]]);
      QueuesOk(t) && Idle(t, s.waiting[sem][0])
  {
    var t := s.(sems := s.sems[sem := s.sems[sem] + 1], waiting := s.waiting[sem := s.waiting[sem][1..]]);
    forall w | 0 <= w < SEM_MAX
      ensures WaitingOk(t.status, t.waiting[w], t.sems[w])
    {
      assert WaitingOk(s.status, s.waiting[w], s.sems[w]);
    }
    assert WaitingOk(s.status, s.waiting[sem], s.sems[sem]);
    var p := s.waiting[sem][0];
    forall w | 0 <= w < SEM_MAX
      ensures p !in t.waiting[w]
    {
      if w < sem {
        assert Disjoint(s.waiting[w], s.waiting[sem]);
      } else if w > sem {
        assert Disjoint(s.waiting[sem], s.waiting[w]);
      }
    }
  }

  lemma ReleaseKeepsInv(s: State, sem: nat)
    requires Inv(s) && sem < s.cnt
    ensures Inv(Release(s, sem))
    ensures s.sems[sem] < 0 ==> Release(s, sem).ready == s.ready + [s.waiting[sem][0]]
  {
    PopNeverEmpty(s, sem);
    if s.sems[sem] < 0 {
      PopKeepsQueues(s, sem);
      var p := s.waiting[sem][0];
      assert WaitingOk(s.status, s.waiting[sem], s.sems[sem]);
      var t := s.(sems := s.sems[sem := s.sems[sem] + 1], waiting := s.waiting[sem := s.waiting[sem][1..]]);
      SetStatus(t, p, READY);
      InsertKeepsQueues(t.(status := t.status[p := READY]), p);
    } else {
      var t := s.(sems := s.sems[sem := s.sems[sem] + 1]);
      forall w | 0 <= w < SEM_MAX
        ensures WaitingOk(t.status, t.waiting[w], t.sems[w])
      {
        assert WaitingOk(s.status, s.waiting[w], s.sems[w]);
      }
    }
  }

  lemma FreeIsIdle(s: State, p: nat)
    requires QueuesOk(s) && p < NPROC && s.status[p] == FREE
    ensures Idle(s, p)
  {
    forall w | 0 <= w < SEM_MAX
      ensures p !in s.waiting[w]
    {
      assert WaitingOk(s.status, s.waiting[w], s.sems[w]);
    }
  }

  lemma SpawnKeepsInv(s: State)
    requires Inv(s) && FirstFree(s.status) < NPROC
    ensures Inv(Spawn(s)) && Spawn(s).ready == s.ready + [FirstFree(s.status)]
  {
    var p := FirstFree(s.status);
    FreeIsIdle(s, p);
    SetStatus(s, p, READY);
    InsertKeepsQueues(s.(status := s.status[p := READY]), p);
  }
}
