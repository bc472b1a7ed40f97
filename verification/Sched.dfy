/**
 The code of kernel/sched.c: FIFO queues threaded through the one queue_next field of each
 process. Each method refines a step of the machine in SchedState; that the shared links
 always spell out disjoint, acyclic queues is the class invariant.
 */
module Sched {
  import opened Options
  import opened SchedState

  /** NULL */
  const NIL := NPROC

  /** From `a`, the links lead through `queue` and end. */
  ghost predicate Chain(next: seq<nat>, a: nat, queue: seq<nat>)
    decreases |queue|
  {
    if queue == [] then a == NIL
    else a == queue[0] && a < NPROC == |next| && Chain(next, next[a], queue[1..])
  }

  lemma {:induction false} ChainFrame(next: seq<nat>, a: nat, queue: seq<nat>, p: nat, q: nat)
    requires Chain(next, a, queue) && p !in queue && p < |next|
    ensures Chain(next[p := q], a, queue)
    decreases |queue|
  {
    if queue != [] {
      ChainFrame(next, next[a], queue[1..], p, q);
    }
  }

  /** Linking `p` behind the last of the queue. */
  lemma {:induction false} ChainAppend(next: seq<nat>, a: nat, queue: seq<nat>, p: nat)
    requires Chain(next, a, queue) && NoDuplicates(queue) && queue != []
    requires p < NPROC == |next| && p !in queue && queue[|queue| - 1] < NPROC
    ensures Chain(next[queue[|queue| - 1] := p][p := NIL], a, queue + [p])
    decreases |queue|
  {
    var last := queue[|queue| - 1];
    var next' := next[last := p][p := NIL];
    assert forall i :: 0 <= i < |queue| ==> queue[i] in queue;
    if |queue| == 1 {
      assert (queue + [p])[1..] == [p];
      assert Chain(next', p, [p]);
    } else {
      var rest := queue[1..];
      assert forall i :: 0 <= i < |rest| ==> rest[i] == queue[i + 1];
      assert rest[|rest| - 1] == last;
      ChainAppend(next, next[a], rest, p);
      assert (queue + [p])[1..] == rest + [p];
    }
  }

  class Scheduler {
    var queueNext: seq<nat>
    var readyHead: nat
    var waitingHead: seq<nat>
    var status: seq<Status>
    var ticks: seq<nat>
    var current: seq<Option<nat>>
    var sems: seq<int>
    var cnt: nat
    var halted: bool
    ghost var ready: seq<nat>
    ghost var waiting: seq<seq<nat>>

    /** init_proc_pool and zeroed statics. */
    constructor ()
      ensures Valid() && Now() == Boot()
    {
      queueNext, readyHead, waitingHead := seq(NPROC, _ => NIL), NIL, seq(SEM_MAX, _ => NIL);
      status, ticks, current := seq(NPROC, _ => FREE), seq(NPROC, _ => 0), seq(NCPU, _ => None);
      sems, cnt, halted := seq(SEM_MAX, _ => 0), 0, false;
      ready, waiting := [], seq(SEM_MAX, _ => []);
      new;
      assert Now() == Boot();
    }

    ghost function Now(): State
      reads this
    {
      State(status, ticks, current, ready, waiting, sems, cnt, halted)
    }

    /** The links spell out the queues. */
    ghost predicate Linked()
      reads this
    {
      && |queueNext| == NPROC && |waitingHead| == |waiting| == SEM_MAX
      && Chain(queueNext, readyHead, ready)
      && forall w :: 0 <= w < SEM_MAX ==> Chain(queueNext, waitingHead[w], waiting[w])
    }

    ghost predicate Valid()
      reads this
    {
      Linked() && Inv(Now())
    }

    /** The loop of both queues' insertion: the last of the chain, or `p` itself when it is found on the way. */
    method FindLast(head: nat, p: nat, ghost queue: seq<nat>) returns (last: nat)
      requires |queueNext| == NPROC && Chain(queueNext, head, queue) && queue != []
      ensures last < NPROC && (last == p <==> p in queue)
      ensures p !in queue ==> last == queue[|queue| - 1]
    {
      last := head;
      ghost var i := 0;
      assert queue[0..] == queue;
      while queueNext[last] != NIL
        invariant i < |queue| && last == queue[i] && last < NPROC
        invariant Chain(queueNext, last, queue[i..])
        invariant p !in queue[..i]
        decreases |queue| - i
      {
        assert queue[i..][1..] == queue[i + 1..];
        if last == p { return; }
        assert queue[..i + 1] == queue[..i] + [queue[i]];
        last := queueNext[last];
        i := i + 1;
      }
      assert queue[i..][1..] == queue[i + 1..] == [];
      assert queue == queue[..i] + [queue[i]];
    }

    /** insert_to_ready_queue */
    method InsertToReadyQueue(p: nat)
      requires Linked() && Sized(Now()) && Separate(ready, waiting) && Idle(Now(), p)
      modifies this`queueNext, this`readyHead, this`status, this`ready
      ensures Linked() && Now() == Insert(old(Now()), p)
    {
      if readyHead == NIL {
        ChainsKept(queueNext, waitingHead, waiting, SEM_MAX, p, NIL, p, NIL);
        assert queueNext[p := NIL][p := NIL] == queueNext[p := NIL];
        status := status[p := READY];
        queueNext := queueNext[p := NIL];
        readyHead := p;
        ready := [p];
        return;
      }
      var last := FindLast(readyHead, p, ready);
      if last == p { return; }
      ApartFromWaiting(ready, waiting, last);
      ChainsKept(queueNext, waitingHead, waiting, SEM_MAX, last, p, p, NIL);
      ChainAppend(queueNext, readyHead, ready, p);
      queueNext := queueNext[last := p];
      status := status[p := READY];
      queueNext := queueNext[p := NIL];
      ready := ready + [p];
    }

    /** waiting_queue_push */
    method WaitingQueuePush(p: nat, sem: nat)
      requires Linked() && Sized(Now()) && Separate(ready, waiting) && Idle(Now(), p) && sem < SEM_MAX
      modifies this`queueNext, this`waitingHead, this`status, this`waiting
      ensures Linked() && Now() == Push(old(Now()), p, sem)
    {
      if waitingHead[sem] == NIL {
        ChainsKept(queueNext, waitingHead, waiting, sem, p, NIL, p, NIL);
        assert queueNext[p := NIL][p := NIL] == queueNext[p := NIL];
        ChainFrame(queueNext, readyHead, ready, p, NIL);
        status := status[p := BLOCKED];
        queueNext := queueNext[p := NIL];
        waitingHead := waitingHead[sem := p];
        waiting := waiting[sem := waiting[sem] + [p]];
        return;
      }
      var last := FindLast(waitingHead[sem], p, waiting[sem]);
      if last == p { return; }
      ApartFromOthers(ready, waiting, sem, last);
      ChainsKept(queueNext, waitingHead, waiting, sem, last, p, p, NIL);
      ChainFrame(queueNext, readyHead, ready, last, p);
      ChainFrame(queueNext[last := p], readyHead, ready, p, NIL);
      ChainAppend(queueNext, waitingHead[sem], waiting[sem], p);
      queueNext := queueNext[last := p];
      status := status[p := BLOCKED];
      queueNext := queueNext[p := NIL];
      waiting := waiting[sem := waiting[sem] + [p]];
    }

    /** waiting_queue_pop, which needs someone to be waiting. */
    method WaitingQueuePop(sem: nat) returns (p: nat)
      requires Linked() && sem < SEM_MAX && waiting[sem] != []
      modifies this`waitingHead, this`waiting
      ensures Linked() && p == old(waiting)[sem][0] && waiting == old(waiting)[sem := old(waiting)[sem][1..]]
    {
      p := waitingHead[sem];
      waitingHead := waitingHead[sem := queueNext[p]];
      waiting := waiting[sem := waiting[sem][1..]];
    }

    /** schedule, on processor `h`. It asserts that the process it picks is READY. */
    method ScheduleNext(h: nat)
      requires Linked() && QueuesOk(Now()) && RunningOk(Now(), h) && h < NCPU
      modifies this`readyHead, this`status, this`current, this`ready, this`halted
      ensures Valid() && Now() == Schedule(old(Now()), h)
    {
      ScheduleKeepsInv(Now(), h);
      if readyHead == NIL {
        halted := true;
        return;
      }
      var p := readyHead;
      current := current[h := Some(p)];
      assert status[p] == READY;
      readyHead := queueNext[p];
      status := status[p := RUNNING];
      ready := ready[1..];
    }

    /** sys_user_yield */
    method YieldProcessor(h: nat)
      requires Valid() && !halted && h < NCPU && current[h].Some?
      modifies this
      ensures Valid() && Now() == Yield(old(Now()), h)
    {
      var p := current[h].value;
      RunningIsIdle(Now(), h);
      SetStatus(Now(), p, READY);
      status := status[p := READY];
      InsertKeepsQueues(Now(), p);
      QueuesAreSeparate(Now());
      InsertToReadyQueue(p);
      ScheduleNext(h);
    }

    /** rrsched */
    method RoundRobin(h: nat)
      requires Valid() && !halted && h < NCPU && current[h].Some?
      modifies this
      ensures Valid() && Now() == Timer(old(Now()), h)
    {
      TimerKeepsInv(Now(), h);
      var p := current[h].value;
      ticks := ticks[p := ticks[p] + 1];
      if ticks[p] >= TIME_SLICE_LEN {
        ticks := ticks[p := 0];
        assert Inv(Now());
        YieldProcessor(h);
      }
    }

    /** sem_init, within the table. The queues stay sound exactly when the value is not negative. */
    method SemaphoreInit(val: int) returns (sem: nat)
      requires Valid() && cnt < SEM_MAX
      modifies this`sems, this`cnt
      ensures Linked() && Now() == SemInit(old(Now()), val) && sem == old(cnt)
      ensures Valid() <==> val >= 0
    {
      SemInitKeepsInvIff(Now(), val);
      sems := sems[cnt := val];
      sem := cnt;
      cnt := cnt + 1;
    }

    /** __acquire */
    method P(h: nat, sem: nat)
      requires Valid() && !halted && h < NCPU && current[h].Some? && sem < cnt
      modifies this
      ensures Valid() && Now() == Acquire(old(Now()), h, sem)
    {
      AcquireKeepsInv(Now(), h, sem);
      RunningIsIdle(Now(), h);
      QueuesAreSeparate(Now());
      ghost var was, p := Now(), current[h].value;
      sems := sems[sem := sems[sem] - 1];
      if sems[sem] < 0 {
        BlockKeepsQueues(was, p, sem);
        WaitingQueuePush(current[h].value, sem);
        assert RunningOk(Now(), h);
        ScheduleNext(h);
      }
    }

    /** __release */
    method V(h: nat, sem: nat)
      requires Valid() && sem < cnt
      modifies this
      ensures Valid() && Now() == Release(old(Now()), sem)
    {
      ReleaseKeepsInv(Now(), sem);
      PopNeverEmpty(Now(), sem);
      ghost var was := Now();
      sems := sems[sem := sems[sem] + 1];
      if sems[sem] <= 0 {
        PopKeepsQueues(was, sem);
        var p := WaitingQueuePop(sem);
        QueuesAreSeparate(Now());
        status := status[p := READY];
        InsertToReadyQueue(p);
      }
    }

    /** The scan of alloc_process, and the insertion at the end of fork; with no FREE slot the original panics. */
    method Fork() returns (p: nat)
      requires Valid() && FirstFree(status) < NPROC
      modifies this
      ensures Valid() && Now() == Spawn(old(Now())) && p == FirstFree(old(status))
    {
      SpawnKeepsInv(Now());
      p := 0;
      while status[p] != FREE
        invariant p <= FirstFree(status)
        modifies {}
        decreases NPROC - p
      {
        p := p + 1;
      }
      FreeIsIdle(Now(), p);
      QueuesAreSeparate(Now());
      status := status[p := READY];
      InsertToReadyQueue(p);
    }
  }

  /** No process is in two queues, or twice in one. */
  ghost predicate Separate(ready: seq<nat>, waiting: seq<seq<nat>>) {
    && |waiting| == SEM_MAX && NoDuplicates(ready)
    && (forall w :: 0 <= w < SEM_MAX ==> NoDuplicates(waiting[w]) && Disjoint(ready, waiting[w]))
    && (forall v, w :: 0 <= v < w < SEM_MAX ==> Disjoint(waiting[v], waiting[w]))
  }

  lemma QueuesAreSeparate(s: State)
    requires QueuesOk(s)
    ensures Separate(s.ready, s.waiting)
  {
    forall w | 0 <= w < SEM_MAX
      ensures NoDuplicates(s.waiting[w]) && Disjoint(s.ready, s.waiting[w])
    {
      assert WaitingOk(s.status, s.waiting[w], s.sems[w]);
    }
  }

  lemma ApartFromWaiting(ready: seq<nat>, waiting: seq<seq<nat>>, p: nat)
    requires Separate(ready, waiting) && p in ready
    ensures forall w :: 0 <= w < SEM_MAX ==> p !in waiting[w]
  {
    forall w | 0 <= w < SEM_MAX
      ensures p !in waiting[w]
    {
      assert Disjoint(ready, waiting[w]);
    }
  }

  lemma ApartFromOthers(ready: seq<nat>, waiting: seq<seq<nat>>, sem: nat, p: nat)
    requires Separate(ready, waiting) && sem < SEM_MAX && p in waiting[sem]
    ensures p !in ready && forall w :: 0 <= w < SEM_MAX && w != sem ==> p !in waiting[w]
  {
    assert Disjoint(ready, waiting[sem]);
    forall w | 0 <= w < SEM_MAX && w != sem
      ensures p !in waiting[w]
    {
      if w < sem {
        assert Disjoint(waiting[w], waiting[sem]);
      } else {
        assert Disjoint(waiting[sem], waiting[w]);
      }
    }
  }

  /** Two link updates off every queue but one leave those queues linked. */
  lemma ChainsKept(next: seq<nat>, heads: seq<nat>, queues: seq<seq<nat>>, skip: nat, a: nat, x: nat, b: nat, y: nat)
    requires |heads| == |queues| && a < |next| && b < |next|
    requires forall w :: 0 <= w < |heads| && w != skip ==>
      Chain(next, heads[w], queues[w]) && a !in queues[w] && b !in queues[w]
    ensures forall w :: 0 <= w < |heads| && w != skip ==> Chain(next[a := x][b := y], heads[w], queues[w])
  {
    forall w | 0 <= w < |heads| && w != skip
      ensures Chain(next[a := x][b := y], heads[w], queues[w])
    {
      ChainFrame(next, heads[w], queues[w], a, x);
      ChainFrame(next[a := x], heads[w], queues[w], b, y);
    }
  }
}
