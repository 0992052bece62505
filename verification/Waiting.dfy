/** Starvation freedom of the round robin, with an explicit bound in clock ticks. */
module Waiting {
  import opened Params
  import opened Paging
  import opened Machine
  import opened TaskQueues
  import opened Invariants
  import opened TickRuns
  import opened Calls

  function Max1(x: int): (r: int)
    ensures r >= 1
  {
    if x < 1 then 1 else x
  }

  // Ticks the given tasks can use up, one after the other.
  function Ahead(tasks: seq<Task>, s: seq<Tid>): (r: nat)
    requires |tasks| == NR_TASKS
  {
    if s == [] then 0 else Max1(tasks[s[0]].quantum) + Ahead(tasks, s[1..])
  }

  // Ticks until the task at position i of the ready queue runs, at the latest.
  ghost function Wait(k: Kernel, i: nat): (r: nat)
    requires Shape(k) && i < |k.queues[READY]|
    ensures r >= 1
  {
    Max1(k.remaining) + Ahead(k.tasks, k.queues[READY][..i])
  }

  ghost predicate SameQuanta(k: Kernel, n: Kernel)
    requires Shape(k) && Shape(n)
  {
    forall t: Tid :: t in k.queues[READY] ==> n.tasks[t].quantum == k.tasks[t].quantum
  }

  // Nobody left the front of the ready queue.
  ghost predicate Kept(k: Kernel, n: Kernel)
    requires Shape(k) && Shape(n)
  {
    && k.queues[READY] <= n.queues[READY] && n.remaining == k.remaining && SameQuanta(k, n)
  }

  // The first ready task was dispatched with a full quantum.
  ghost predicate Rotated(k: Kernel, n: Kernel)
    requires Shape(k) && Shape(n) && k.queues[READY] != []
  {
    var first := k.queues[READY][0];
    && n.current == first && n.remaining == k.tasks[first].quantum
    && k.queues[READY][1..] <= n.queues[READY] && SameQuanta(k, n)
  }

  lemma {:induction false} AheadFrame(a: seq<Task>, b: seq<Task>, s: seq<Tid>)
    requires |a| == |b| == NR_TASKS
    requires forall t :: t in s ==> a[t].quantum == b[t].quantum
    ensures Ahead(a, s) == Ahead(b, s)
  {
    if s == [] {
    } else {
      AheadFrame(a, b, s[1..]);
    }
  }

  lemma KeptWait(k: Kernel, n: Kernel, i: nat)
    requires Shape(k) && Shape(n) && Kept(k, n) && i < |k.queues[READY]|
    ensures i < |n.queues[READY]| && n.queues[READY][i] == k.queues[READY][i]
    ensures Wait(n, i) == Wait(k, i)
  {
    assert n.queues[READY][..i] == k.queues[READY][..i];
    AheadFrame(k.tasks, n.tasks, k.queues[READY][..i]);
  }

  lemma RotatedWait(k: Kernel, n: Kernel, i: nat)
    requires Shape(k) && Shape(n) && 0 < i < |k.queues[READY]| && Rotated(k, n)
    ensures i - 1 < |n.queues[READY]| && n.queues[READY][i - 1] == k.queues[READY][i]
    ensures Wait(n, i - 1) == Wait(k, i) - Max1(k.remaining)
  {
    var ready := k.queues[READY];
    assert ready[..i][1..] == ready[1..][..i - 1] == n.queues[READY][..i - 1];
    AheadFrame(k.tasks, n.tasks, ready[..i][1..]);
  }

  // ---------- What a step does to the ready queue ----------

  lemma SchedNextRotates(k: Kernel, n: Kernel)
    requires Shape(k) && Shape(n) && k.queues[READY] != []
    requires k.queues[READY] <= n.queues[READY] && SameQuanta(k, n)
    ensures Shape(SchedNext(n)) && Rotated(k, SchedNext(n))
  {
  }

  lemma {:induction false} WakeAllKeeps(k: Kernel, h: int)
    requires Shape(k) && KEYBOARD <= h < NR_QUEUES
    ensures Shape(WakeAll(k, h)) && Kept(k, WakeAll(k, h))
    ensures forall t: Tid :: WakeAll(k, h).tasks[t].quantum == k.tasks[t].quantum
    decreases |k.queues[h]|
  {
    if k.queues[h] == [] {
    } else {
      WakeAllKeeps(Wake(k, h), h);
    }
  }

  lemma CallKind(k: Kernel, e: Event)
    requires Inv(k) && Enabled(k, e) && e.IsCall() && k.queues[READY] != []
    ensures Kept(k, Next(k, e)) || Rotated(k, Next(k, e))
  {
    match e
    case EFork => ForkKind(k);
    case EClone(accessible) => CloneKind(k, accessible);
    case EExit(reclaims) => ExitKind(k, reclaims);
    case ESemInit(n, value) => InitKind(k, n, value);
    case ESemWait(n) => WaitKind(k, n);
    case ESemSignal(n) => SignalKind(k, n);
    case ESemDestroy(n) => DestroyKind(k, n);
    case ESbrk(increment) => SbrkKind(k, increment);
    case ERead(size) => ReadKind(k, size);
  }

  lemma SpawnKeeps(k: Kernel, dir: nat)
    requires Inv(k) && k.queues[FREE] != [] && dir < NR_TASKS
    ensures Shape(Spawn(k, dir).k) && Kept(k, Spawn(k, dir).k)
  {
    var child := k.queues[FREE][0];
    assert child in k.queues[FREE];
  }

  lemma ForkKind(k: Kernel)
    requires Inv(k) && Enabled(k, EFork)
    ensures Kept(k, Next(k, EFork))
  {
    hide QueuesOk, StatesOk, BlockedOk, ReferencesOk, MemoryOk, ImagesOk, SemaphoresOk, ReadsOk;
    IsForkReady(k);
    if k.queues[FREE] != [] && AllocN(k.memory.phys, NUM_PAG_DATA).Allocated? {
      SpawnKeeps(k, FreeDirectory(k.references, 0));
    }
  }

  lemma CloneKind(k: Kernel, accessible: bool)
    requires Inv(k) && Enabled(k, EClone(accessible))
    ensures Kept(k, Next(k, EClone(accessible)))
  {
    if k.queues[FREE] != [] { SpawnKeeps(k, k.tasks[k.current].dir); }
  }

  lemma ExitKind(k: Kernel, reclaims: bool)
    requires Inv(k) && Enabled(k, EExit(reclaims)) && k.queues[READY] != []
    ensures Rotated(k, Next(k, EExit(reclaims)))
  {
    LeavingMemory(k, reclaims);
    SchedNextRotates(k, Leaving(k, reclaims));
  }

  lemma WaitKind(k: Kernel, n: int)
    requires Inv(k) && Enabled(k, ESemWait(n)) && k.queues[READY] != []
    ensures Kept(k, Next(k, ESemWait(n))) || Rotated(k, Next(k, ESemWait(n)))
  {
    if SemNumber(n) && k.semaphores[n].counter <= 0 {
      SchedNextRotates(k, Park(Suspend(k, InSemWait(n)), SemQueue(n)));
    }
  }

  lemma InitKind(k: Kernel, n: int, value: int)
    requires Inv(k) && Enabled(k, ESemInit(n, value))
    ensures Kept(k, Next(k, ESemInit(n, value)))
  {
  }

  lemma SignalKind(k: Kernel, n: int)
    requires Inv(k) && Enabled(k, ESemSignal(n))
    ensures Kept(k, Next(k, ESemSignal(n)))
  {
  }

  lemma SbrkKind(k: Kernel, increment: int)
    requires Inv(k) && Enabled(k, ESbrk(increment))
    ensures Kept(k, Next(k, ESbrk(increment)))
  {
    hide QueuesOk, StatesOk, BlockedOk, ReferencesOk, MemoryOk, ImagesOk, SemaphoresOk, ReadsOk;
  }

  lemma DestroyKind(k: Kernel, n: int)
    requires Inv(k) && Enabled(k, ESemDestroy(n))
    ensures Kept(k, Next(k, ESemDestroy(n)))
  {
    if SemNumber(n) {
      var s := k.semaphores[n].(owner := -1);
      WakeAllKeeps(k.(semaphores := k.semaphores[n := s]), SemQueue(n));
    }
  }

  lemma BlockKind(k: Kernel, b: Kernel, size: int)
    requires Shape(k) && Shape(b) && Kept(k, b) && k.queues[READY] != []
    ensures Shape(SchedNext(Park(Suspend(b, InRead(size)), KEYBOARD)))
    ensures Rotated(k, SchedNext(Park(Suspend(b, InRead(size)), KEYBOARD)))
  {
    SchedNextRotates(k, Park(Suspend(b, InRead(size)), KEYBOARD));
  }

  lemma ReadPassKind(k: Kernel, b: Kernel, size: int)
    requires Shape(k) && Shape(b) && Kept(k, b) && k.queues[READY] != []
    requires Shape(ReadPass(b, size).k)
    ensures Kept(k, ReadPass(b, size).k) || Rotated(k, ReadPass(b, size).k)
  {
    var task := b.tasks[b.current];
    if task.toRead <= 0 {
    } else if b.queues[KEYBOARD] == [] && 0 <= size <= |b.ring| {
    } else if b.queues[KEYBOARD] == [] && |b.ring| == RING_SIZE - 1 {
      BlockKind(k, Hand(b, |b.ring|), size);
    } else {
      BlockKind(k, b, size);
    }
  }

  lemma ReadKind(k: Kernel, size: int)
    requires Inv(k) && Enabled(k, ERead(size)) && k.queues[READY] != []
    ensures Kept(k, Next(k, ERead(size))) || Rotated(k, Next(k, ERead(size)))
  {
    var b := BeginRead(k, size);
    BeginReadInv(k, size);
    ReadPassInv(b, size);
    ReadPassKind(k, b, size);
    assert Next(k, ERead(size)) == ReadPass(b, size).k;
  }

  lemma ResumeKind(k: Kernel)
    requires Inv(k) && Enabled(k, EResume) && k.queues[READY] != []
    ensures Kept(k, Next(k, EResume)) || Rotated(k, Next(k, EResume))
  {
    match k.tasks[k.current].pending
    case InSemWait(_) =>
    case InRead(size) =>
      StepInv(k, EResume);
      assert Next(k, EResume) == ReadPass(k, size).k;
      ReadPassKind(k, k, size);
  }

  lemma KeyKind(k: Kernel, key: Byte)
    requires Inv(k) && Enabled(k, EKey(key))
    ensures Kept(k, Next(k, EKey(key)))
  {
  }

  lemma TickKind(k: Kernel)
    requires Inv(k) && Enabled(k, ETick) && k.queues[READY] != []
    ensures if k.remaining <= 1 then Rotated(k, Next(k, ETick))
            else Next(k, ETick) == k.(remaining := k.remaining - 1)
  {
    hide QueuesOk, StatesOk, BlockedOk, ReferencesOk, MemoryOk, ImagesOk, SemaphoresOk, ReadsOk;
    if k.remaining <= 1 {
      SchedNextRotates(k, Park(k.(remaining := k.remaining - 1), READY));
    }
  }

  // ---------- The bound ----------

  function Ticks(run: seq<Event>): nat {
    if run == [] then 0 else (if run[0].ETick? then 1 else 0) + Ticks(run[1..])
  }

  // Some step of the run dispatches t.
  ghost predicate Dispatched(k: Kernel, run: seq<Event>, t: Tid)
    requires Inv(k) && Legal(k, run)
    decreases |run|
  {
    run != [] && (Next(k, run[0]).current == t || Dispatched(Next(k, run[0]), run[1..], t))
  }

  lemma StepKind(k: Kernel, e: Event)
    requires Inv(k) && Enabled(k, e) && k.queues[READY] != []
    ensures || (!e.ETick? && Kept(k, Next(k, e)))
            || Rotated(k, Next(k, e))
            || (e.ETick? && k.remaining > 1 && Next(k, e) == k.(remaining := k.remaining - 1))
  {
    if e.ETick? {
      TickKind(k);
    } else if e.EResume? {
      ResumeKind(k);
    } else if e.EKey? {
      KeyKind(k, e.key);
    } else {
      CallKind(k, e);
    }
  }

  /**
   One step dispatches the waiting task or leaves it in the ready queue with a bound that did not
   grow, and that a clock tick has lowered.
   */
  lemma StepWait(k: Kernel, e: Event, i: nat) returns (j: nat)
    requires Inv(k) && Enabled(k, e) && i < |k.queues[READY]|
    ensures var n := Next(k, e);
            var t := k.queues[READY][i];
            || n.current == t
            || (&& j < |n.queues[READY]| && n.queues[READY][j] == t
                && Wait(n, j) + Ticks([e]) <= Wait(k, i))
  {
    hide QueuesOk, StatesOk, BlockedOk, ReferencesOk, MemoryOk, ImagesOk, SemaphoresOk, ReadsOk;
    var n := Next(k, e);
    StepKind(k, e);
    if !e.ETick? && Kept(k, n) {
      KeptWait(k, n, i);
      j := i;
    } else if Rotated(k, n) {
      if i > 0 {
        RotatedWait(k, n, i);
        j := i - 1;
      } else {
        j := 0;
      }
    } else {
      j := i;
    }
  }

  /**
   In every run, whatever blocks, wakes, forks or exits meanwhile, the task at position i of the
   ready queue is dispatched before Wait(k, i) clock ticks have gone by.
   */
  lemma {:induction false} BoundedWaiting(k: Kernel, run: seq<Event>, i: nat)
    requires Inv(k) && Legal(k, run) && i < |k.queues[READY]|
    requires Ticks(run) >= Wait(k, i)
    ensures Dispatched(k, run, k.queues[READY][i])
    decreases |run|
  {
    var j := StepWait(k, run[0], i);
    var n := Next(k, run[0]);
    if n.current != k.queues[READY][i] {
      BoundedWaiting(n, run[1..], j);
    }
  }

  // ---------- The bound in quanta ----------

  // What is left of the running task's quantum is no more than it was given.
  ghost predicate WithinQuantum(k: Kernel)
    requires Shape(k)
  {
    k.remaining <= k.tasks[k.current].quantum
  }

  // Nobody's quantum is longer than the one task 1 starts with.
  ghost predicate QuantaOk(k: Kernel)
    requires Shape(k)
  {
    forall t: Tid :: k.tasks[t].quantum <= QUANTUM
  }

  /** No entry gives the running task more than its quantum. */
  lemma StepWithin(k: Kernel, e: Event)
    requires Inv(k) && Enabled(k, e) && WithinQuantum(k)
    ensures WithinQuantum(Next(k, e))
  {
    hide StatesOk, BlockedOk, ReferencesOk, MemoryOk, ImagesOk, SemaphoresOk, ReadsOk, Outcome, Switches;
    var n := Next(k, e);
    if MadeBy(k, e, n.current) {
      assert n.current in k.queues[FREE];
      WhoRuns(k, e);
      MakingGoesOn(k, e);
    } else {
      TasksKeep(k, e, n.current);
      if e.ETick? { TickExact(k); } else { WhoRuns(k, e); }
    }
  }

  lemma MakingGoesOn(k: Kernel, e: Event)
    requires Shape(k) && (e.EFork? || e.EClone?)
    ensures !Switches(k, e)
  {
  }

  lemma StepQuanta(k: Kernel, e: Event)
    requires Inv(k) && Enabled(k, e) && QuantaOk(k)
    ensures QuantaOk(Next(k, e))
  {
    hide QueuesOk, StatesOk, BlockedOk, ReferencesOk, MemoryOk, ImagesOk, SemaphoresOk, ReadsOk, Outcome, CanMake;
    forall t: Tid
      ensures Next(k, e).tasks[t].quantum <= QUANTUM
    {
      if MadeBy(k, e, t) { MakesTask(k, e); } else { TasksKeep(k, e, t); }
    }
  }

  lemma {:induction false} RunWithin(k: Kernel, run: seq<Event>)
    requires Inv(k) && Legal(k, run) && WithinQuantum(k)
    ensures WithinQuantum(Run(k, run))
    ensures QuantaOk(k) ==> QuantaOk(Run(k, run))
    decreases |run|
  {
    hide QueuesOk, StatesOk, BlockedOk, ReferencesOk, MemoryOk, ImagesOk, SemaphoresOk, ReadsOk;
    hide Outcome, Enabled, WithinQuantum, QuantaOk;
    if run == [] {
    } else {
      StepWithin(k, run[0]);
      if QuantaOk(k) { StepQuanta(k, run[0]); }
      RunWithin(Next(k, run[0]), run[1..]);
    }
  }

  lemma {:induction false} AheadBound(tasks: seq<Task>, s: seq<Tid>)
    requires |tasks| == NR_TASKS && forall t: Tid :: tasks[t].quantum <= QUANTUM
    ensures Ahead(tasks, s) <= QUANTUM * |s|
  {
    if s == [] {
    } else {
      AheadBound(tasks, s[1..]);
    }
  }

  /**
   The task at position i of the ready queue runs before the quantum of the running task and the
   quanta of the i tasks ahead have gone by, at least one tick counted for each.
   */
  lemma WaitsForQuanta(k: Kernel, run: seq<Event>, i: nat)
    requires Inv(k) && Legal(k, run) && WithinQuantum(k) && i < |k.queues[READY]|
    requires Ticks(run) >= Max1(k.tasks[k.current].quantum) + Ahead(k.tasks, k.queues[READY][..i])
    ensures Dispatched(k, run, k.queues[READY][i])
  {
    hide Inv, Legal, Ticks, Ahead, Dispatched;
    BoundedWaiting(k, run, i);
  }

  /** And where nobody's quantum is longer than 300, before 300 * (i + 1) ticks. */
  lemma WaitsInTurn(k: Kernel, run: seq<Event>, i: nat)
    requires Inv(k) && Legal(k, run) && WithinQuantum(k) && QuantaOk(k) && i < |k.queues[READY]|
    requires Ticks(run) >= 300 * (i + 1)
    ensures Dispatched(k, run, k.queues[READY][i])
  {
    hide QueuesOk, StatesOk, BlockedOk, ReferencesOk, MemoryOk, ImagesOk, SemaphoresOk, ReadsOk;
    hide Legal, Ticks, Ahead, Dispatched;
    AheadBound(k.tasks, k.queues[READY][..i]);
    WaitsForQuanta(k, run, i);
  }
}
