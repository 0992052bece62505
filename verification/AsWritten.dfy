/**
 sys_sem_signal and sys_sem_destroy to the letter. Both unlink a waiter twice: the signal looks for
 the task after unlinking it (sys.c:281-282), and update_process_state_rr unlinks it again
 (sys.c:298-299, sched.c:79-82). The second time the links are null, so list_del goes through
 address 0.
 */
module AsWritten {
  import opened Params
  import opened Paging
  import opened Machine
  import opened TaskQueues
  import opened Invariants

  // How a call ends: it goes on as any other, it faults on page 0, or it takes what lies at address 0
  // for a task and follows pointers found there.
  datatype Written = Completes(s: Step) | PageFaults | Strays

  ghost function SemSignalWritten(k: Kernel, n: int): Written
    requires Shape(k)
  {
    if !SemNumber(n) then Completes(Return(k, -ENAVAIL))
    else if k.queues[SemQueue(n)] == [] then
      var s := k.semaphores[n];
      Completes(Return(k.(semaphores := k.semaphores[n := s.(counter := s.counter + 1)]), 0))
    else if ZeroPage(k.memory) then Strays
    else PageFaults
  }

  // The draining loop of sys_sem_destroy, for as long as it does not fault.
  ghost function WakeAllWritten(k: Kernel, h: int): Written
    requires Shape(k) && KEYBOARD <= h < NR_QUEUES
    decreases |k.queues[h]|
  {
    if k.queues[h] == [] then Completes(Return(k, 0))
    else if !ZeroPage(k.memory) then PageFaults
    else WakeAllWritten(Wake(k.(memory := NullStored(k.memory)), h), h)
  }

  ghost function SemDestroyWritten(k: Kernel, n: int): Written
    requires Shape(k)
  {
    if !SemNumber(n) || k.tasks[k.current].pid != k.semaphores[n].owner then Completes(Return(k, -ENAVAIL))
    else
      var s := k.semaphores[n];
      WakeAllWritten(k.(semaphores := k.semaphores[n := s.(owner := -1)]), SemQueue(n))
  }

  // ---------- When they do what they mean to ----------

  /** The signal as written is a signal if and only if it is refused or nobody waits. */
  lemma SignalMeets(k: Kernel, n: int)
    requires Inv(k) && Enabled(k, ESemSignal(n))
    ensures SemSignalWritten(k, n) == Completes(SemSignal(k, n))
            <==> !SemNumber(n) || k.queues[SemQueue(n)] == []
  {
  }

  // Equal but for the first eight bytes of physical memory.
  ghost predicate SameButLow(a: Kernel, b: Kernel) {
    && |a.memory.bytes| == |b.memory.bytes| && 0 < |a.memory.bytes|
    && a == b.(memory := b.memory.(bytes := a.memory.bytes))
    && (forall f :: 0 < f < |a.memory.bytes| ==> a.memory.bytes[f] == b.memory.bytes[f])
    && |a.memory.bytes[0]| == |b.memory.bytes[0]|
    && (forall i :: 8 <= i < |a.memory.bytes[0]| ==> a.memory.bytes[0][i] == b.memory.bytes[0][i])
  }

  // The call completes as the repaired one does.
  ghost predicate DestroyDone(k: Kernel, n: int)
    requires Shape(k)
  {
    var w := SemDestroyWritten(k, n);
    && w.Completes? && w.s.reply == SemDestroy(k, n).reply && w.s.got == []
    && SameButLow(w.s.k, SemDestroy(k, n).k)
  }

  lemma {:induction false} WakeAllAgrees(k: Kernel, h: int)
    requires Shape(k) && KernelMapped(k.memory) && KEYBOARD <= h < NR_QUEUES
    ensures WakeAllWritten(k, h).Completes? <==> k.queues[h] == [] || ZeroPage(k.memory)
    ensures WakeAllWritten(k, h) != Strays
    ensures WakeAllWritten(k, h).Completes? ==>
              && SameButLow(WakeAllWritten(k, h).s.k, WakeAll(k, h))
              && WakeAllWritten(k, h).s == Return(WakeAllWritten(k, h).s.k, 0)
    decreases |k.queues[h]|
  {
    if k.queues[h] == [] {
    } else if !ZeroPage(k.memory) {
    } else {
      var m := NullStored(k.memory);
      WakeAllAgrees(Wake(k.(memory := m), h), h);
      assert Wake(k.(memory := m), h) == Wake(k, h).(memory := m);
      WakeAllMemory(Wake(k, h), m, h);
    }
  }

  // Waking does not look at memory.
  lemma {:induction false} WakeAllMemory(k: Kernel, m: Memory, h: int)
    requires Shape(k) && Shaped(m) && KEYBOARD <= h < NR_QUEUES
    ensures Shape(WakeAll(k, h)) && WakeAll(k.(memory := m), h) == WakeAll(k, h).(memory := m)
    ensures WakeAll(k, h).memory == k.memory
    decreases |k.queues[h]|
  {
    if k.queues[h] == [] {
    } else {
      assert Wake(k.(memory := m), h) == Wake(k, h).(memory := m);
      WakeAllMemory(Wake(k, h), m, h);
    }
  }

  /**
   The destruction as written does its work if and only if it is refused, nobody waits, or page 0 is
   there to take the null links; it then also clears the first eight bytes of physical memory.
   Otherwise it faults with the first waiter.
   */
  lemma DestroyMeets(k: Kernel, n: int)
    requires Inv(k) && Enabled(k, ESemDestroy(n))
    ensures DestroyDone(k, n) <==>
              || !SemNumber(n) || k.tasks[k.current].pid != k.semaphores[n].owner
              || k.queues[SemQueue(n)] == [] || ZeroPage(k.memory)
    ensures !DestroyDone(k, n) ==> SemDestroyWritten(k, n) == PageFaults
  {
    hide QueuesOk, StatesOk, ReferencesOk, ImagesOk, SemaphoresOk, ReadsOk, Exclusive, Coherent;
    if SemNumber(n) && k.tasks[k.current].pid == k.semaphores[n].owner {
      WakeAllAgrees(k.(semaphores := k.semaphores[n := k.semaphores[n].(owner := -1)]), SemQueue(n));
    }
  }

  // ---------- The books ----------

  // The kernel after a call as written that completes.
  ghost function After(k: Kernel, e: Event): Written
    requires Inv(k) && Enabled(k, e) && (e.ESemSignal? || e.ESemDestroy?)
  {
    if e.ESemSignal? then SemSignalWritten(k, e.n) else SemDestroyWritten(k, e.n)
  }

  /**
   Whenever a call as written completes, semaphores, queues, tasks and reply are those of the step
   the ledger balances.
   */
  lemma CompletedIsStep(k: Kernel, e: Event)
    requires Inv(k) && Enabled(k, e) && (e.ESemSignal? || e.ESemDestroy?) && After(k, e).Completes?
    ensures var s := After(k, e).s;
            && SameButLow(s.k, Next(k, e)) && s.reply == Outcome(k, e).reply
            && s.k.semaphores == Next(k, e).semaphores && s.k.queues == Next(k, e).queues
            && s.k.tasks == Next(k, e).tasks
  {
    hide QueuesOk, StatesOk, ReferencesOk, MemoryOk, SemaphoresOk, ReadsOk;
    if e.ESemSignal? {
      SignalMeets(k, e.n);
    } else {
      DestroyMeets(k, e.n);
    }
  }
}
