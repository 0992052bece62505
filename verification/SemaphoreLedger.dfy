/** Conservation of semaphore units and first-in first-out waking, over every run. */
module SemaphoreLedger {
  import opened Params
  import opened Machine
  import opened TaskQueues
  import opened Invariants

  // ---------- What one step does to semaphore s ----------

  ghost function Waiters(k: Kernel, s: int): seq<Tid>
    requires Shape(k) && SemNumber(s)
  {
    k.queues[SemQueue(s)]
  }

  ghost predicate Same(k: Kernel, n: Kernel, s: int)
    requires Shape(k) && Shape(n) && SemNumber(s)
  {
    Waiters(n, s) == Waiters(k, s) && n.semaphores[s] == k.semaphores[s]
  }

  predicate Concerns(e: Event, s: int) {
    match e
    case ESemInit(n, _) => n == s
    case ESemWait(n) => n == s
    case ESemSignal(n) => n == s
    case ESemDestroy(n) => n == s
    case _ => false
  }

  lemma SchedNextSame(k: Kernel, s: int)
    requires Shape(k) && SemNumber(s)
    ensures Shape(SchedNext(k)) && Same(k, SchedNext(k), s)
  {
  }

  /** Waking a whole queue appends it to the ready queue in order. */
  lemma {:induction false} WakeAllOrder(k: Kernel, h: int)
    requires Shape(k) && KEYBOARD <= h < NR_QUEUES
    ensures var n := WakeAll(k, h);
            && Shape(n) && n.queues[h] == [] && n.queues[READY] == k.queues[READY] + k.queues[h]
            && (forall g :: 0 <= g < NR_QUEUES && g != READY && g != h ==> n.queues[g] == k.queues[g])
            && n.semaphores == k.semaphores
    decreases |k.queues[h]|
  {
    if k.queues[h] == [] {
      assert k.queues[READY] + [] == k.queues[READY];
    } else {
      WakeAllOrder(Wake(k, h), h);
      var first, rest := [k.queues[h][0]], k.queues[h][1..];
      assert k.queues[h] == first + rest;
      assert (k.queues[READY] + first) + rest == k.queues[READY] + (first + rest);
    }
  }

  lemma ReadPassSame(k: Kernel, size: int, s: int)
    requires Shape(k) && SemNumber(s)
    ensures Shape(ReadPass(k, size).k) ==> Same(k, ReadPass(k, size).k, s)
  {
    SchedNextSame(Park(Suspend(k, InRead(size)), KEYBOARD), s);
    SchedNextSame(Park(Suspend(Hand(k, |k.ring|), InRead(size)), KEYBOARD), s);
  }

  lemma ProcessSame(k: Kernel, e: Event, s: int)
    requires Inv(k) && Enabled(k, e) && SemNumber(s)
    requires e.EFork? || e.EClone? || e.EExit? || e.ESbrk?
    ensures Same(k, Next(k, e), s)
  {
    hide QueuesOk, StatesOk, BlockedOk, ReferencesOk, MemoryOk, ImagesOk, SemaphoresOk, ReadsOk;
    match e
    case EFork => IsForkReady(k);
    case EClone(_) =>
    case EExit(reclaims) =>
      LeavingMemory(k, reclaims);
      SchedNextSame(Leaving(k, reclaims), s);
    case ESbrk(_) =>
  }

  lemma InterruptSame(k: Kernel, e: Event, s: int)
    requires Inv(k) && Enabled(k, e) && SemNumber(s)
    requires e.ERead? || e.EResume? || e.ETick? || e.EKey?
    ensures Same(k, Next(k, e), s)
  {
    hide QueuesOk, StatesOk, BlockedOk, ReferencesOk, MemoryOk, ImagesOk, SemaphoresOk, ReadsOk;
    match e
    case ERead(size) =>
      StepInv(k, e);
      ReadPassSame(BeginRead(k, size), size, s);
    case EResume =>
      StepInv(k, e);
      if k.tasks[k.current].pending.InRead? {
        ReadPassSame(k, k.tasks[k.current].pending.size, s);
      }
    case ETick => SchedNextSame(Park(k.(remaining := k.remaining - 1), READY), s);
    case EKey(_) =>
  }

  // A call on semaphore n touches no other one.
  lemma OtherSame(k: Kernel, e: Event, s: int)
    requires Inv(k) && Enabled(k, e) && SemNumber(s) && !Concerns(e, s)
    requires e.ESemInit? || e.ESemWait? || e.ESemSignal? || e.ESemDestroy?
    ensures Same(k, Next(k, e), s)
  {
    hide QueuesOk, StatesOk, BlockedOk, ReferencesOk, MemoryOk, ImagesOk, SemaphoresOk, ReadsOk;
    match e
    case ESemInit(_, _) =>
    case ESemWait(n) =>
      if SemNumber(n) { SchedNextSame(Park(Suspend(k, InSemWait(n)), SemQueue(n)), s); }
    case ESemSignal(_) =>
    case ESemDestroy(n) =>
      if SemNumber(n) {
        WakeAllOrder(k.(semaphores := k.semaphores[n := k.semaphores[n].(owner := -1)]), SemQueue(n));
      }
  }

  // ---------- The books ----------

  function One(b: bool): nat { if b then 1 else 0 }

  ghost predicate Signals(k: Kernel, e: Event, s: int) { e == ESemSignal(s) }

  // A wait that returned at once.
  ghost predicate Grants(k: Kernel, e: Event, s: int)
    requires Inv(k) && Enabled(k, e)
  {
    e == ESemWait(s) && Outcome(k, e).reply == Returns(0)
  }

  // The task that blocked at s in this step, if any.
  ghost function Joins(k: Kernel, e: Event, s: int): seq<Tid>
    requires Inv(k) && Enabled(k, e)
  {
    if e == ESemWait(s) && Outcome(k, e).reply == Blocks then [k.current] else []
  }

  // The tasks moved from the queue of s to the ready queue in this step, in that order.
  ghost function Leaves(k: Kernel, e: Event, s: int): seq<Tid>
    requires Inv(k) && Enabled(k, e) && SemNumber(s)
  {
    if e == ESemSignal(s) && Waiters(k, s) != [] then Waiters(k, s)[..1]
    else if e == ESemDestroy(s) && k.tasks[k.current].pid == k.semaphores[s].owner then Waiters(k, s)
    else []
  }

  // A successful sys_sem_init of s: the books start anew.
  ghost predicate Reopens(k: Kernel, e: Event, s: int)
    requires Shape(k) && SemNumber(s)
  {
    e.ESemInit? && e.n == s && k.semaphores[s].owner == -1
  }

  // The books of s balance over one step: counter and units, then arrivals and departures.
  ghost predicate Balanced(k: Kernel, e: Event, s: int)
    requires Inv(k) && Enabled(k, e) && SemNumber(s)
  {
    var n := Next(k, e);
    && n.semaphores[s].counter + One(Grants(k, e, s))
       + One(Signals(k, e, s) && Leaves(k, e, s) != [])
       == k.semaphores[s].counter + One(Signals(k, e, s))
    && Waiters(k, s) + Joins(k, e, s) == Leaves(k, e, s) + Waiters(n, s)
    && (Leaves(k, e, s) != [] ==> n.queues[READY] == k.queues[READY] + Leaves(k, e, s))
    && (k.semaphores[s].counter >= 0 ==> n.semaphores[s].counter >= 0)
  }

  lemma WaitLedger(k: Kernel, s: int)
    requires Inv(k) && Enabled(k, ESemWait(s)) && SemNumber(s)
    ensures Balanced(k, ESemWait(s), s)
  {
    hide QueuesOk, StatesOk, ReferencesOk, MemoryOk, SemaphoresOk, ReadsOk;
    if k.semaphores[s].counter <= 0 {
      SchedNextSame(Park(Suspend(k, InSemWait(s)), SemQueue(s)), s);
    }
  }

  lemma SignalLedger(k: Kernel, s: int)
    requires Inv(k) && Enabled(k, ESemSignal(s)) && SemNumber(s)
    ensures Balanced(k, ESemSignal(s), s)
  {
    hide QueuesOk, StatesOk, ReferencesOk, MemoryOk, SemaphoresOk, ReadsOk;
    var w := Waiters(k, s);
    if w != [] { assert w == w[..1] + w[1..]; }
  }

  lemma DestroyLedger(k: Kernel, s: int)
    requires Inv(k) && Enabled(k, ESemDestroy(s)) && SemNumber(s)
    ensures Balanced(k, ESemDestroy(s), s)
  {
    hide QueuesOk, StatesOk, ReferencesOk, MemoryOk, SemaphoresOk, ReadsOk;
    WakeAllOrder(k.(semaphores := k.semaphores[s := k.semaphores[s].(owner := -1)]), SemQueue(s));
  }

  lemma UnconcernedLedger(k: Kernel, e: Event, s: int)
    requires Inv(k) && Enabled(k, e) && SemNumber(s) && !Concerns(e, s)
    ensures Balanced(k, e, s)
  {
    hide Inv, Apply, Outcome;
    if e.ESemInit? || e.ESemWait? || e.ESemSignal? || e.ESemDestroy? {
      OtherSame(k, e, s);
    } else if e.EFork? || e.EClone? || e.EExit? || e.ESbrk? {
      ProcessSame(k, e, s);
    } else {
      InterruptSame(k, e, s);
    }
  }

  /** Every step but a successful initialisation of s balances the books of s. */
  lemma StepLedger(k: Kernel, e: Event, s: int)
    requires Inv(k) && Enabled(k, e) && SemNumber(s) && !Reopens(k, e, s)
    ensures Balanced(k, e, s)
  {
    hide Inv;
    if Concerns(e, s) {
      hide Balanced;
      match e
      case ESemInit(_, _) => RefusedInit(k, e, s);
      case ESemWait(_) => WaitLedger(k, s);
      case ESemSignal(_) => SignalLedger(k, s);
      case ESemDestroy(_) => DestroyLedger(k, s);
    } else {
      UnconcernedLedger(k, e, s);
    }
  }

  lemma RefusedInit(k: Kernel, e: Event, s: int)
    requires Inv(k) && Enabled(k, e) && SemNumber(s) && !Reopens(k, e, s)
    requires e.ESemInit? && e.n == s
    ensures Balanced(k, e, s)
  {
    hide Inv;
  }

  // ---------- Runs ----------

  ghost predicate NeverReopened(k: Kernel, run: seq<Event>, s: int)
    requires Inv(k) && Legal(k, run) && SemNumber(s)
    decreases |run|
  {
    run == [] || (!Reopens(k, run[0], s) && NeverReopened(Next(k, run[0]), run[1..], s))
  }

  ghost function SignalsIn(k: Kernel, run: seq<Event>, s: int): nat
    requires Inv(k) && Legal(k, run) && SemNumber(s)
    decreases |run|
  {
    if run == [] then 0
    else One(Signals(k, run[0], s)) + SignalsIn(Next(k, run[0]), run[1..], s)
  }

  // Units handed out: waits that returned at once and waiters woken by a signal.
  ghost function UnitsIn(k: Kernel, run: seq<Event>, s: int): nat
    requires Inv(k) && Legal(k, run) && SemNumber(s)
    decreases |run|
  {
    if run == [] then 0
    else One(Grants(k, run[0], s))
         + One(Signals(k, run[0], s) && Leaves(k, run[0], s) != [])
         + UnitsIn(Next(k, run[0]), run[1..], s)
  }

  ghost function JoinsIn(k: Kernel, run: seq<Event>, s: int): seq<Tid>
    requires Inv(k) && Legal(k, run) && SemNumber(s)
    decreases |run|
  {
    if run == [] then [] else Joins(k, run[0], s) + JoinsIn(Next(k, run[0]), run[1..], s)
  }

  ghost function LeavesIn(k: Kernel, run: seq<Event>, s: int): seq<Tid>
    requires Inv(k) && Legal(k, run) && SemNumber(s)
    decreases |run|
  {
    if run == [] then [] else Leaves(k, run[0], s) + LeavesIn(Next(k, run[0]), run[1..], s)
  }

  /**
   Between two initialisations of s: units at the start plus signals are the units left plus the
   units handed out, whoever waits, signals, destroys, exits or is preempted.
   */
  lemma {:induction false} UnitsConserved(k: Kernel, run: seq<Event>, s: int)
    requires Inv(k) && Legal(k, run) && SemNumber(s) && NeverReopened(k, run, s)
    ensures k.semaphores[s].counter + SignalsIn(k, run, s)
            == Run(k, run).semaphores[s].counter + UnitsIn(k, run, s)
    ensures k.semaphores[s].counter >= 0 ==> Run(k, run).semaphores[s].counter >= 0
    decreases |run|
  {
    if run == [] {
    } else {
      StepLedger(k, run[0], s);
      UnitsConserved(Next(k, run[0]), run[1..], s);
    }
  }

  /** Waiters leave in the order in which they blocked: the queue is the rest of those who came. */
  lemma {:induction false} WaitersInOrder(k: Kernel, run: seq<Event>, s: int)
    requires Inv(k) && Legal(k, run) && SemNumber(s) && NeverReopened(k, run, s)
    ensures Waiters(k, s) + JoinsIn(k, run, s) == LeavesIn(k, run, s) + Waiters(Run(k, run), s)
    decreases |run|
  {
    if run == [] {
    } else {
      var e, n := run[0], Next(k, run[0]);
      var rest := run[1..];
      StepLedger(k, e, s);
      WaitersInOrder(n, rest, s);
      Chain(Waiters(k, s), Joins(k, e, s), Leaves(k, e, s), Waiters(n, s),
            JoinsIn(n, rest, s), LeavesIn(n, rest, s), Waiters(Run(n, rest), s));
      assert Run(k, run) == Run(n, rest);
    }
  }

  // Two steps of a queue, each taking what left off the front of what was there and came.
  lemma Chain<T>(start: seq<T>, came: seq<T>, left: seq<T>, middle: seq<T>,
                 cameLater: seq<T>, leftLater: seq<T>, end: seq<T>)
    requires start + came == left + middle
    requires middle + cameLater == leftLater + end
    ensures start + (came + cameLater) == (left + leftLater) + end
  {
    assert start + (came + cameLater) == (start + came) + cameLater;
    assert (left + middle) + cameLater == left + (middle + cameLater);
    assert left + (leftLater + end) == (left + leftLater) + end;
  }

  /**
   From a successful init on: the counter is never negative if the initial value, an unsigned,
   fits an int, and then a non-empty queue means no unit is left.
   */
  lemma SinceInit(k: Kernel, s: int, value: int, run: seq<Event>)
    requires Inv(k) && Enabled(k, ESemInit(s, value)) && SemNumber(s)
    requires k.semaphores[s].owner == -1
    requires Legal(Next(k, ESemInit(s, value)), run)
    requires NeverReopened(Next(k, ESemInit(s, value)), run, s)
    ensures var b := Next(k, ESemInit(s, value));
            var n := Run(b, run);
            && Signed(value) + SignalsIn(b, run, s) == n.semaphores[s].counter + UnitsIn(b, run, s)
            && JoinsIn(b, run, s) == LeavesIn(b, run, s) + Waiters(n, s)
            && (value < 0x8000_0000 ==>
                  n.semaphores[s].counter >= 0
                  && (Waiters(n, s) != [] ==> n.semaphores[s].counter == 0))
            && (value >= 0x8000_0000 ==> b.semaphores[s].counter < 0)
  {
    var b := Next(k, ESemInit(s, value));
    UnitsConserved(b, run, s);
    WaitersInOrder(b, run, s);
    assert [] + JoinsIn(b, run, s) == JoinsIn(b, run, s);
  }
}
