/** Where every task is: running, parked (idle only) or in exactly one queue. */
module Placement {
  import opened Params
  import opened Paging
  import opened Machine
  import opened TaskQueues
  import opened Invariants

  ghost predicate InQueues(q: Queues, t: Tid) {
    exists h :: 0 <= h < |q| && t in q[h]
  }

  // The kernel can still reach t: idle through its own pointer, anybody else as the running task
  // or through a queue.
  ghost predicate Reachable(k: Kernel, t: Tid) {
    t == k.current || t == k.idle || InQueues(k.queues, t)
  }

  datatype Place = Running | Parked | Queued(h: int, i: int)

  ghost predicate IsAt(k: Kernel, t: Tid, p: Place)
    requires Shape(k)
  {
    match p
    case Running => t == k.current
    case Parked => t == k.idle && t != k.current && !InQueues(k.queues, t)
    case Queued(h, i) => 0 <= h < NR_QUEUES && 0 <= i < |k.queues[h]| && k.queues[h][i] == t
  }

  /** A reachable task is at one place, and only there. */
  lemma OnePlace(k: Kernel, t: Tid)
    requires Inv(k)
    ensures Reachable(k, t) <==> exists p :: IsAt(k, t, p)
    ensures forall p, r :: IsAt(k, t, p) && IsAt(k, t, r) ==> p == r
  {
    if Reachable(k, t) {
      if t == k.current {
        assert IsAt(k, t, Running);
      } else if InQueues(k.queues, t) {
        var h :| 0 <= h < NR_QUEUES && t in k.queues[h];
        var i :| 0 <= i < |k.queues[h]| && k.queues[h][i] == t;
        assert IsAt(k, t, Queued(h, i));
      } else {
        assert IsAt(k, t, Parked);
      }
    }
  }

  // ---------- Queue operations ----------

  lemma AppendMembers(q: Queues, h: int, t: Tid, u: Tid)
    requires 0 <= h < |q|
    ensures InQueues(Append(q, h, t), u) <==> u == t || InQueues(q, u)
  {
    var r := Append(q, h, t);
    if InQueues(q, u) {
      var g :| 0 <= g < |q| && u in q[g];
      assert u in r[g];
    }
    assert t in r[h];
    if InQueues(r, u) && u != t {
      var g :| 0 <= g < |r| && u in r[g];
      assert u in q[g];
    }
  }

  lemma PopMembers(q: Queues, h: int, u: Tid)
    requires 0 <= h < |q| && q[h] != [] && Once(q)
    ensures InQueues(q, u) <==> u == q[h][0] || InQueues(Pop(q, h), u)
  {
    var r := Pop(q, h);
    OncePop(q, h);
    if InQueues(q, u) && u != q[h][0] {
      var g :| 0 <= g < |q| && u in q[g];
      assert u in r[g];
    }
    assert q[h][0] in q[h];
    if InQueues(r, u) {
      var g :| 0 <= g < |r| && u in r[g];
      assert u in q[g];
    }
  }

  // ---------- Steps ----------

  lemma SchedNextMembers(k: Kernel, t: Tid)
    requires Shape(k) && Once(k.queues)
    ensures Reachable(SchedNext(k), t) <==> t == k.idle || InQueues(k.queues, t)
  {
    if k.queues[READY] != [] { PopMembers(k.queues, READY, t); }
  }

  lemma ParkMembers(k: Kernel, h: int, t: Tid)
    requires Shape(k) && Once(k.queues) && Unlinked(k.queues, k.current) && 0 <= h < NR_QUEUES
    ensures Reachable(SchedNext(Park(k, h)), t) <==> Reachable(k, t)
  {
    AppendMembers(k.queues, h, k.current, t);
    OnceAppend(k.queues, h, k.current);
    SchedNextMembers(Park(k, h), t);
  }

  lemma WakeMembers(k: Kernel, h: int, t: Tid)
    requires Inv(k) && KEYBOARD <= h < NR_QUEUES && k.queues[h] != []
    ensures Reachable(Wake(k, h), t) <==> Reachable(k, t)
  {
    PopMembers(k.queues, h, t);
    AppendMembers(Pop(k.queues, h), READY, k.queues[h][0], t);
  }

  lemma {:induction false} WakeAllMembers(k: Kernel, h: int, t: Tid)
    requires Inv(k) && KEYBOARD <= h < NR_QUEUES
    ensures Reachable(WakeAll(k, h), t) <==> Reachable(k, t)
    decreases |k.queues[h]|
  {
    if k.queues[h] == [] {
    } else {
      WakeInv(k, h);
      WakeMembers(k, h, t);
      WakeAllMembers(Wake(k, h), h, t);
    }
  }

  lemma SpawnMembers(k: Kernel, dir: nat, t: Tid)
    requires Inv(k) && k.queues[FREE] != [] && dir < NR_TASKS
    ensures Reachable(Spawn(k, dir).k, t) <==> Reachable(k, t)
  {
    PopMembers(k.queues, FREE, t);
    AppendMembers(Pop(k.queues, FREE), READY, k.queues[FREE][0], t);
  }

  lemma ReadPassMembers(k: Kernel, size: int, t: Tid)
    requires Inv(k)
    ensures Reachable(ReadPass(k, size).k, t) <==> Reachable(k, t)
  {
    ParkMembers(Suspend(k, InRead(size)), KEYBOARD, t);
    ParkMembers(Suspend(Hand(k, |k.ring|), InRead(size)), KEYBOARD, t);
  }

  // sys_sem_init on a semaphore whose queue still holds tasks that blocked after its destruction.
  ghost predicate Orphans(k: Kernel, e: Event, t: Tid)
    requires Shape(k)
  {
    && e.ESemInit? && SemNumber(e.n) && k.semaphores[e.n].owner == -1
    && t in k.queues[SemQueue(e.n)]
  }

  lemma InitMembers(k: Kernel, n: int, value: int, t: Tid)
    requires Inv(k) && Enabled(k, ESemInit(n, value))
    ensures Reachable(Next(k, ESemInit(n, value)), t) <==>
              Reachable(k, t) && !Orphans(k, ESemInit(n, value), t)
  {
    var q, r := k.queues, Next(k, ESemInit(n, value)).queues;
    if InQueues(q, t) {
      var h :| 0 <= h < NR_QUEUES && t in q[h];
      if !Orphans(k, ESemInit(n, value), t) { assert t in r[h]; }
    }
    if InQueues(r, t) {
      var h :| 0 <= h < NR_QUEUES && t in r[h];
      assert t in q[h];
    }
  }

  lemma CallMembers(k: Kernel, e: Event, t: Tid)
    requires Inv(k) && Enabled(k, e) && e.IsCall() && !e.ESemInit?
    ensures Reachable(Next(k, e), t) <==> Reachable(k, t)
  {
    hide StatesOk, MemoryOk, ImagesOk, ReadsOk;
    match e
    case EFork =>
      IsForkReady(k);
      if k.queues[FREE] != [] && AllocN(k.memory.phys, NUM_PAG_DATA).Allocated? {
        SpawnMembers(k, FreeDirectory(k.references, 0), t);
      }
    case EClone(_) => if k.queues[FREE] != [] { SpawnMembers(k, k.tasks[k.current].dir, t); }
    case EExit(reclaims) =>
      LeavingMemory(k, reclaims);
      OnceAppend(k.queues, FREE, k.current);
      AppendMembers(k.queues, FREE, k.current, t);
      SchedNextMembers(Leaving(k, reclaims), t);
    case ESemWait(n) =>
      if SemNumber(n) { ParkMembers(Suspend(k, InSemWait(n)), SemQueue(n), t); }
    case ESemSignal(n) =>
      if SemNumber(n) && k.queues[SemQueue(n)] != [] { WakeMembers(k, SemQueue(n), t); }
    case ESemDestroy(n) =>
      if SemNumber(n) && k.tasks[k.current].pid == k.semaphores[n].owner {
        var s := k.semaphores[n].(owner := -1);
        SemaphoreChangeInv(k, n, s);
        WakeAllMembers(k.(semaphores := k.semaphores[n := s]), SemQueue(n), t);
      }
    case ESbrk(_) =>
    case ERead(size) =>
      BeginReadInv(k, size);
      ReadPassMembers(BeginRead(k, size), size, t);
  }

  /**
   A step loses a task exactly when it re-initialises a semaphore the task is queued at, and a
   lost task never comes back.
   */
  lemma StepMembers(k: Kernel, e: Event, t: Tid)
    requires Inv(k) && Enabled(k, e)
    ensures Reachable(Next(k, e), t) <==> Reachable(k, t) && !Orphans(k, e, t)
  {
    hide StatesOk, BlockedOk, ReferencesOk, MemoryOk, ImagesOk, SemaphoresOk, ReadsOk;
    if e.ESemInit? {
      InitMembers(k, e.n, e.value, t);
    } else if e.IsCall() {
      CallMembers(k, e, t);
    } else if e.ETick? {
      var n := k.(remaining := k.remaining - 1);
      ParkMembers(n, READY, t);
    } else if e.EKey? {
      var full := |k.ring| == RING_SIZE - 1;
      var k1 := if full then k else k.(ring := k.ring + [e.key]);
      RingInv(k, k1.ring);
      if k1.queues[KEYBOARD] != [] { WakeMembers(k1, KEYBOARD, t); }
    } else if k.tasks[k.current].pending.InRead? {
      ReadPassMembers(k, k.tasks[k.current].pending.size, t);
    }
  }

  ghost predicate EverOrphaned(k: Kernel, run: seq<Event>, t: Tid)
    requires Inv(k) && Legal(k, run)
    decreases |run|
  {
    run != [] && (Orphans(k, run[0], t) || EverOrphaned(Next(k, run[0]), run[1..], t))
  }

  lemma {:induction false} RunMembers(k: Kernel, run: seq<Event>, t: Tid)
    requires Inv(k) && Legal(k, run)
    ensures Reachable(Run(k, run), t) ==> Reachable(k, t)
    ensures Reachable(k, t) ==> (Reachable(Run(k, run), t) <==> !EverOrphaned(k, run, t))
    decreases |run|
  {
    if run == [] {
    } else {
      StepMembers(k, run[0], t);
      RunMembers(Next(k, run[0]), run[1..], t);
      assert Run(k, run) == Run(Next(k, run[0]), run[1..]);
    }
  }

  /**
   Over every run the tasks stay partitioned among the running task, parked idle and the queues,
   up to the tasks orphaned by re-initialising a semaphore that still has waiters: a task is still
   at its one place after the run if and only if the run never orphaned it.
   */
  lemma RunPartition(k: Kernel, run: seq<Event>, t: Tid)
    requires Inv(k) && Legal(k, run) && Reachable(k, t)
    ensures var n := Run(k, run);
            && ((exists p :: IsAt(n, t, p)) <==> !EverOrphaned(k, run, t))
            && (forall p, r :: IsAt(n, t, p) && IsAt(n, t, r) ==> p == r)
  {
    RunMembers(k, run, t);
    OnePlace(Run(k, run), t);
  }
}
