/** What a task that blocks at a semaphore is told in the end, over every run. */
module WaitAnswers {
  import opened Params
  import opened Machine
  import opened Invariants
  import opened SemaphoreLedger
  import opened KeyboardStream
  import opened Calls

  // A successful sys_sem_destroy of s.
  ghost predicate Closes(k: Kernel, e: Event, s: int)
    requires Shape(k) && SemNumber(s)
  {
    e == ESemDestroy(s) && k.semaphores[s].owner == k.tasks[k.current].pid
  }

  /** The owner of a semaphore changes by a successful init or destroy and by nothing else. */
  lemma StepOwner(k: Kernel, e: Event, s: int)
    requires Inv(k) && Enabled(k, e) && SemNumber(s)
    ensures Next(k, e).semaphores[s].owner ==
              if Reopens(k, e, s) then k.tasks[k.current].pid
              else if Closes(k, e, s) then -1 else k.semaphores[s].owner
  {
    hide QueuesOk, StatesOk, BlockedOk, ReferencesOk, MemoryOk, ImagesOk, SemaphoresOk, ReadsOk, Outcome;
    if Concerns(e, s) {
      match e
      case ESemInit(_, value) => SemInitExact(k, s, value);
      case ESemWait(_) => SemWaitExact(k, s);
      case ESemSignal(_) => SemSignalExact(k, s);
      case ESemDestroy(_) => SemDestroyExact(k, s);
    } else if e.ESemInit? || e.ESemWait? || e.ESemSignal? || e.ESemDestroy? {
      OtherSame(k, e, s);
    } else if e.EFork? || e.EClone? || e.EExit? || e.ESbrk? {
      ProcessSame(k, e, s);
    } else {
      InterruptSame(k, e, s);
    }
  }

  ghost predicate NeverCloses(k: Kernel, run: seq<Event>, s: int)
    requires Inv(k) && Legal(k, run) && SemNumber(s)
    decreases |run|
  {
    run == [] || (!Closes(k, run[0], s) && NeverCloses(Next(k, run[0]), run[1..], s))
  }

  // Some step of the run destroys s, and none after it initialises it again.
  ghost predicate ClosesForGood(k: Kernel, run: seq<Event>, s: int)
    requires Inv(k) && Legal(k, run) && SemNumber(s)
    decreases |run|
  {
    run != [] &&
    (ClosesForGood(Next(k, run[0]), run[1..], s)
     || (Closes(k, run[0], s) && NeverReopened(Next(k, run[0]), run[1..], s)))
  }

  /** A semaphore with an owner keeps it until it is destroyed: no init succeeds meanwhile. */
  lemma {:induction false} RunOwned(k: Kernel, run: seq<Event>, s: int)
    requires Inv(k) && Legal(k, run) && SemNumber(s) && k.semaphores[s].owner != -1 && NeverCloses(k, run, s)
    ensures Run(k, run).semaphores[s].owner == k.semaphores[s].owner
    decreases |run|
  {
    hide QueuesOk, StatesOk, ReferencesOk, MemoryOk, SemaphoresOk, ReadsOk, Outcome, Enabled;
    if run == [] {
    } else {
      StepOwner(k, run[0], s);
      RunOwned(Next(k, run[0]), run[1..], s);
    }
  }

  lemma {:induction false} RunUnowned(k: Kernel, run: seq<Event>, s: int)
    requires Inv(k) && Legal(k, run) && SemNumber(s) && k.semaphores[s].owner == -1 && NeverReopened(k, run, s)
    ensures Run(k, run).semaphores[s].owner == -1
    decreases |run|
  {
    hide QueuesOk, StatesOk, ReferencesOk, MemoryOk, SemaphoresOk, ReadsOk, Outcome, Enabled;
    if run == [] {
    } else {
      StepOwner(k, run[0], s);
      RunUnowned(Next(k, run[0]), run[1..], s);
    }
  }

  lemma {:induction false} RunClosed(k: Kernel, run: seq<Event>, s: int)
    requires Inv(k) && Legal(k, run) && SemNumber(s) && ClosesForGood(k, run, s)
    ensures Run(k, run).semaphores[s].owner == -1
    decreases |run|
  {
    hide QueuesOk, StatesOk, ReferencesOk, MemoryOk, SemaphoresOk, ReadsOk, Outcome, Enabled;
    var n := Next(k, run[0]);
    if ClosesForGood(n, run[1..], s) {
      RunClosed(n, run[1..], s);
    } else {
      StepOwner(k, run[0], s);
      RunUnowned(n, run[1..], s);
    }
  }

  // A wait is under way until it is answered.
  lemma StepWaiting(k: Kernel, e: Event, t: Tid, s: int)
    requires Inv(k) && Enabled(k, e) && Live(k, t) && k.tasks[t].pending == InSemWait(s)
    requires !Answers(k, e, t)
    ensures Live(Next(k, e), t) && Next(k, e).tasks[t].pending == InSemWait(s)
  {
    hide QueuesOk, StatesOk, BlockedOk, ReferencesOk, MemoryOk, ImagesOk, SemaphoresOk, ReadsOk, Outcome;
    if t == k.current {
      ResumeWaitExact(k, s);
    } else if e.EFork? || e.EClone? || e.EExit? || e.ESbrk? || e.ETick? {
      OtherReadProcess(k, e, t);
    } else {
      OtherReadCall(k, e, t);
    }
  }

  lemma {:induction false} RunWaiting(k: Kernel, run: seq<Event>, t: Tid, s: int)
    requires Inv(k) && Legal(k, run) && Live(k, t) && k.tasks[t].pending == InSemWait(s)
    requires Unanswered(k, run, t)
    ensures Live(Run(k, run), t) && Run(k, run).tasks[t].pending == InSemWait(s)
    decreases |run|
  {
    hide QueuesOk, StatesOk, ReferencesOk, MemoryOk, SemaphoresOk, ReadsOk, Outcome, Enabled;
    if run == [] {
    } else {
      StepWaiting(k, run[0], t, s);
      RunWaiting(Next(k, run[0]), run[1..], t, s);
    }
  }

  lemma WaitStarts(k: Kernel, s: int)
    requires Inv(k) && Enabled(k, ESemWait(s)) && Outcome(k, ESemWait(s)).reply == Blocks
    ensures SemNumber(s) && k.semaphores[s].counter <= 0
    ensures var b := Next(k, ESemWait(s));
            Live(b, k.current) && b.tasks[k.current].pending == InSemWait(s) && b.semaphores == k.semaphores
  {
    hide StatesOk, BlockedOk, ReferencesOk, MemoryOk, ImagesOk, SemaphoresOk, ReadsOk;
    SchedNextSameRead(Park(Suspend(k, InSemWait(s)), SemQueue(s)), k.current);
  }

  /**
   A wait that blocks, from its call to its answer, whoever signals, destroys, exits or is preempted
   meanwhile: the answer is 0 if and only if the semaphore has an owner in that moment and -119
   otherwise. So a waiter gets 0 if the semaphore had its owner all along, however it was woken, and
   -119 if it was destroyed and not initialised again.
   */
  lemma WaitAnswered(k: Kernel, s: int, run: seq<Event>, e: Event)
    requires Inv(k) && Enabled(k, ESemWait(s)) && Outcome(k, ESemWait(s)).reply == Blocks
    requires Legal(Next(k, ESemWait(s)), run) && Unanswered(Next(k, ESemWait(s)), run, k.current)
    requires Enabled(Run(Next(k, ESemWait(s)), run), e)
    requires Answers(Run(Next(k, ESemWait(s)), run), e, k.current)
    ensures 0 <= s < 20
    ensures var b := Next(k, ESemWait(s));
            var n := Run(b, run);
            var reply := Outcome(n, e).reply;
            && reply == Returns(if n.semaphores[s].owner != -1 then 0 else -119)
            && (k.semaphores[s].owner != -1 && NeverCloses(b, run, s) ==> reply == Returns(0))
            && (ClosesForGood(b, run, s) ==> reply == Returns(-119))
  {
    hide QueuesOk, StatesOk, ReferencesOk, MemoryOk, SemaphoresOk, ReadsOk, Outcome, Run, Legal;
    var b := Next(k, ESemWait(s));
    WaitStarts(k, s);
    RunWaiting(b, run, k.current, s);
    ResumeWaitExact(Run(b, run), s);
    if k.semaphores[s].owner != -1 && NeverCloses(b, run, s) { RunOwned(b, run, s); }
    if ClosesForGood(b, run, s) { RunClosed(b, run, s); }
  }
}
