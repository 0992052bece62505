/**
 What every entry into the kernel does, field by field: replies, who runs next and for how long, and
 what each task keeps.
 */
module Calls {
  import opened Params
  import opened Paging
  import opened Machine
  import opened TaskQueues
  import opened Invariants
  import opened SpaceRuns
  import opened SemaphoreLedger
  import opened TickRuns

  // ---------- Dispatching ----------

  // The first ready task, or else idle, runs for a full quantum, in its own directory.
  ghost predicate TakesOver(ready: seq<Tid>, k: Kernel, n: Kernel)
    requires Shape(k) && Shape(n)
  {
    var t := if ready == [] then k.idle else ready[0];
    && n.current == t && n.tasks[t].state == ST_RUN && n.remaining == k.tasks[t].quantum
    && n.memory.cr3 == k.tasks[t].dir
    && n.queues[READY] == if ready == [] then [] else ready[1..]
  }

  lemma SchedNextTakesOver(k: Kernel, m: Kernel)
    requires Shape(k) && Shape(m) && Shape(SchedNext(m)) && m.idle == k.idle && m.current == k.current
    requires forall t: Tid :: m.tasks[t].quantum == k.tasks[t].quantum && m.tasks[t].dir == k.tasks[t].dir
    requires SchedNext(m).memory.cr3 == SchedNext(m).tasks[SchedNext(m).current].dir
    ensures TakesOver(m.queues[READY], k, SchedNext(m))
  {
  }

  // The running task goes on; only a tick touches its quantum.
  ghost predicate GoesOn(k: Kernel, e: Event, n: Kernel)
    requires Shape(k)
  {
    n.current == k.current && (!e.ETick? ==> n.remaining == k.remaining)
  }

  lemma ReadSwitch(k: Kernel, e: Event, b: Kernel, size: int)
    requires Inv(k) && Enabled(k, e) && Shape(b) && Outcome(k, e) == ReadPass(b, size)
    requires b.queues == k.queues && b.current == k.current && b.idle == k.idle && b.remaining == k.remaining
    requires forall t: Tid :: b.tasks[t].quantum == k.tasks[t].quantum && b.tasks[t].dir == k.tasks[t].dir
    requires !e.ETick?
    ensures if PassBlocks(b, size) then TakesOver(k.queues[READY], k, Next(k, e)) else GoesOn(k, e, Next(k, e))
  {
    hide Wake, Once, SchedNext, Switches, Enabled;
    hide QueuesOk, BlockedOk, ReferencesOk, ImagesOk, SemaphoresOk, ReadsOk, Sound, Coherent, Apply, TakesOver;
    if !PassBlocks(b, size) {
    } else if b.queues[KEYBOARD] == [] && |b.ring| == RING_SIZE - 1 {
      SchedNextTakesOver(k, Park(Suspend(Hand(b, |b.ring|), InRead(size)), KEYBOARD));
    } else {
      SchedNextTakesOver(k, Park(Suspend(b, InRead(size)), KEYBOARD));
    }
  }

  lemma CallGoesOn(k: Kernel, e: Event)
    requires Inv(k) && Enabled(k, e) && !Switches(k, e) && !e.ERead?
    requires !(e.EResume? && k.tasks[k.current].pending.InRead?)
    ensures GoesOn(k, e, Next(k, e))
  {
    hide QueuesOk, StatesOk, BlockedOk, ReferencesOk, ImagesOk, SemaphoresOk, ReadsOk, Sound, Coherent;
    match e
    case EFork => IsForkReady(k);
    case ESemDestroy(n) =>
      if SemNumber(n) {
        WakeAllGoesOn(k.(semaphores := k.semaphores[n := k.semaphores[n].(owner := -1)]), SemQueue(n));
      }
    case _ =>
  }

  lemma {:induction false} WakeAllGoesOn(k: Kernel, h: int)
    requires Shape(k) && KEYBOARD <= h < NR_QUEUES
    ensures WakeAll(k, h).current == k.current && WakeAll(k, h).remaining == k.remaining
    decreases |k.queues[h]|
  {
    if k.queues[h] == [] {
    } else {
      WakeAllGoesOn(Wake(k, h), h);
    }
  }

  lemma ExitSwitches(k: Kernel, reclaims: bool)
    requires Inv(k) && Enabled(k, EExit(reclaims))
    ensures TakesOver(k.queues[READY], k, Next(k, EExit(reclaims)))
  {
    hide QueuesOk, BlockedOk, ReferencesOk, ImagesOk, SemaphoresOk, ReadsOk, Sound, Coherent, TakesOver;
    LeavingMemory(k, reclaims);
    SchedNextTakesOver(k, Leaving(k, reclaims));
  }

  lemma WaitSwitches(k: Kernel, n: int)
    requires Inv(k) && Enabled(k, ESemWait(n)) && Switches(k, ESemWait(n))
    ensures TakesOver(k.queues[READY], k, Next(k, ESemWait(n)))
  {
    hide QueuesOk, BlockedOk, ReferencesOk, ImagesOk, SemaphoresOk, ReadsOk, Sound, Coherent, TakesOver;
    SchedNextTakesOver(k, Park(Suspend(k, InSemWait(n)), SemQueue(n)));
  }

  // But for the switch only queues and tasks have changed: CR3 is written for another directory alone.
  ghost predicate SwitchedOnly(k: Kernel, n: Kernel)
    requires Shape(k) && Shape(n)
  {
    var from, to := k.tasks[k.current].dir, k.tasks[n.current].dir;
    && n == k.(queues := n.queues, tasks := n.tasks, current := n.current, remaining := n.remaining,
               memory := n.memory)
    && n.memory == if from == to then k.memory else k.memory.(cr3 := to, tlb := Translations(k.memory.tables[to]))
  }

  /**
   A tick takes one from the time left. If that leaves nothing and somebody is ready, the running task
   goes to the end of the ready queue and the first one takes over; if it leaves nothing and nobody is
   ready, the quantum starts anew; nothing else changes.
   */
  lemma TickExact(k: Kernel)
    requires Inv(k) && Enabled(k, ETick)
    ensures var n := Next(k, ETick);
            if k.remaining <= 1 && k.queues[READY] != [] then
              && TakesOver(k.queues[READY] + [k.current], k, n)
              && n.tasks == k.tasks[k.current := k.tasks[k.current].(state := ST_READY)]
                              [n.current := k.tasks[n.current].(state := ST_RUN)]
              && (forall h :: 0 <= h < NR_QUEUES && h != READY ==> n.queues[h] == k.queues[h])
              && SwitchedOnly(k, n)
            else
              n == k.(remaining := if k.remaining == 1 then k.tasks[k.current].quantum else k.remaining - 1)
  {
    hide BlockedOk, ReferencesOk, ImagesOk, SemaphoresOk, ReadsOk, Sound, Coherent, TakesOver;
    if k.remaining <= 1 && k.queues[READY] != [] {
      var m := Park(k.(remaining := k.remaining - 1), READY);
      SchedNextTakesOver(k, m);
      assert k.queues[READY][0] in k.queues[READY];
    }
  }

  /** Who runs after an entry, and what is left of its quantum. */
  lemma WhoRuns(k: Kernel, e: Event)
    requires Inv(k) && Enabled(k, e)
    ensures Switches(k, e) && !e.ETick? ==> TakesOver(k.queues[READY], k, Next(k, e))
    ensures !Switches(k, e) ==> GoesOn(k, e, Next(k, e))
  {
    hide QueuesOk, StatesOk, BlockedOk, ReferencesOk, ImagesOk, SemaphoresOk, ReadsOk, Sound, Coherent, TakesOver;
    if e.ERead? || (e.EResume? && k.tasks[k.current].pending.InRead?) {
      ReadRuns(k, e);
    } else if e.ETick? {
      TickExact(k);
    } else if e.EExit? {
      ExitSwitches(k, e.reclaims);
    } else if e.ESemWait? && Switches(k, e) {
      WaitSwitches(k, e.n);
    } else {
      CallGoesOn(k, e);
    }
  }

  lemma ReadRuns(k: Kernel, e: Event)
    requires Inv(k) && Enabled(k, e)
    requires e.ERead? || (e.EResume? && k.tasks[k.current].pending.InRead?)
    ensures if Switches(k, e) then TakesOver(k.queues[READY], k, Next(k, e)) else GoesOn(k, e, Next(k, e))
  {
    hide QueuesOk, StatesOk, BlockedOk, ReferencesOk, ImagesOk, SemaphoresOk, ReadsOk, Sound, Coherent;
    hide TakesOver, ReadPass;
    if e.ERead? {
      ReadSwitch(k, e, BeginRead(k, e.size), e.size);
    } else {
      ReadSwitch(k, e, k, k.tasks[k.current].pending.size);
    }
  }

  // ---------- What tasks keep ----------

  // The task structure a step makes, if any.
  ghost predicate MadeBy(k: Kernel, e: Event, t: Tid)
    requires Shape(k)
  {
    (e.EFork? || e.EClone?) && k.queues[FREE] != [] && k.queues[FREE][0] == t
  }

  ghost predicate SameSelf(a: Task, b: Task) { b.quantum == a.quantum && b.pid == a.pid }

  lemma {:induction false} WakeAllSelf(k: Kernel, h: int, t: Tid)
    requires Shape(k) && KEYBOARD <= h < NR_QUEUES
    ensures Shape(WakeAll(k, h)) && SameSelf(k.tasks[t], WakeAll(k, h).tasks[t])
    decreases |k.queues[h]|
  {
    if k.queues[h] == [] {
    } else {
      WakeAllSelf(Wake(k, h), h, t);
    }
  }

  lemma SchedNextSelf(k: Kernel, t: Tid)
    requires Shape(k)
    ensures Shape(SchedNext(k)) && SameSelf(k.tasks[t], SchedNext(k).tasks[t])
  {
  }

  lemma ReadPassSelf(k: Kernel, size: int, t: Tid)
    requires Shape(k)
    ensures |ReadPass(k, size).k.tasks| == NR_TASKS && SameSelf(k.tasks[t], ReadPass(k, size).k.tasks[t])
  {
    hide SetCr3, Signed, Shaped, Word;
    SchedNextSelf(Park(Suspend(k, InRead(size)), KEYBOARD), t);
    SchedNextSelf(Park(Suspend(Hand(k, |k.ring|), InRead(size)), KEYBOARD), t);
  }

  lemma ProcessSelf(k: Kernel, e: Event, t: Tid)
    requires Inv(k) && Enabled(k, e) && !MadeBy(k, e, t)
    requires e.EFork? || e.EClone? || e.EExit? || e.ESbrk? || e.ETick?
    ensures if e.EExit? && t == k.current
            then Next(k, e).tasks[t].pid == -1 && Next(k, e).tasks[t].quantum == k.tasks[t].quantum
            else SameSelf(k.tasks[t], Next(k, e).tasks[t])
  {
    hide QueuesOk, StatesOk, BlockedOk, ReferencesOk, ImagesOk, SemaphoresOk, ReadsOk, Sound, Coherent;
    match e
    case EFork => IsForkReady(k);
    case EClone(_) =>
    case EExit(reclaims) =>
      LeavingMemory(k, reclaims);
      SchedNextSelf(Leaving(k, reclaims), t);
    case ESbrk(_) =>
    case ETick => SchedNextSelf(Park(k.(remaining := k.remaining - 1), READY), t);
  }

  lemma OtherSelf(k: Kernel, e: Event, t: Tid)
    requires Inv(k) && Enabled(k, e)
    requires !(e.EFork? || e.EClone? || e.EExit? || e.ESbrk? || e.ETick?)
    ensures SameSelf(k.tasks[t], Next(k, e).tasks[t])
  {
    hide QueuesOk, StatesOk, BlockedOk, ReferencesOk, ImagesOk, SemaphoresOk, ReadsOk, Sound, Coherent;
    match e
    case ESemInit(_, _) =>
    case ESemWait(n) =>
      if SemNumber(n) { SchedNextSelf(Park(Suspend(k, InSemWait(n)), SemQueue(n)), t); }
    case ESemSignal(_) =>
    case ESemDestroy(n) =>
      if SemNumber(n) {
        WakeAllSelf(k.(semaphores := k.semaphores[n := k.semaphores[n].(owner := -1)]), SemQueue(n), t);
      }
    case ERead(size) => ReadPassSelf(BeginRead(k, size), size, t);
    case EResume =>
      if k.tasks[k.current].pending.InRead? { ReadPassSelf(k, k.tasks[k.current].pending.size, t); }
    case EKey(_) =>
  }

  /** A task keeps its pid until it exits and its quantum for good, whoever does what. */
  lemma TasksKeep(k: Kernel, e: Event, t: Tid)
    requires Inv(k) && Enabled(k, e) && !MadeBy(k, e, t)
    ensures Next(k, e).tasks[t].quantum == k.tasks[t].quantum
    ensures Next(k, e).tasks[t].pid == if e.EExit? && t == k.current then -1 else k.tasks[t].pid
    ensures Next(k, e).idle == k.idle
  {
    hide QueuesOk, StatesOk, BlockedOk, ReferencesOk, ImagesOk, SemaphoresOk, ReadsOk, Sound, Coherent, Outcome;
    if e.EFork? || e.EClone? || e.EExit? || e.ESbrk? || e.ETick? {
      ProcessSelf(k, e, t);
    } else {
      OtherSelf(k, e, t);
    }
    SameIdle(k, e);
  }

  lemma SameIdle(k: Kernel, e: Event)
    requires Inv(k) && Enabled(k, e)
    ensures Next(k, e).idle == k.idle
  {
    hide QueuesOk, StatesOk, BlockedOk, ReferencesOk, ImagesOk, SemaphoresOk, ReadsOk, Sound, Coherent;
    match e
    case EFork => IsForkReady(k);
    case EClone(_) =>
    case EExit(reclaims) =>
      LeavingMemory(k, reclaims);
      SchedNextUntouched(Leaving(k, reclaims));
    case ESbrk(_) =>
    case _ => SparesMemory(k, e);
  }

  // ---------- fork and clone ----------

  // What the caller could check: a task structure is free, and for fork twenty frames, for clone that
  // the pointers can be accessed.
  ghost predicate CanMake(k: Kernel, e: Event)
    requires Shape(k)
  {
    && k.queues[FREE] != []
    && (if e.EFork? then |FreeFrames(k.memory.phys)| >= NUM_PAG_DATA else e.EClone? && e.accessible)
  }

  // The new task has the next pid and no history; the caller is told that pid and goes on.
  ghost predicate MadeExactly(k: Kernel, e: Event, s: Step)
    requires Shape(k) && Shape(s.k) && k.queues[FREE] != []
  {
    var n, child, father := s.k, k.queues[FREE][0], k.tasks[k.current];
    && s.reply == Returns(n.tasks[child].pid) && s.got == []
    && n.tasks[child].pid == Signed(Word(k.nextPid + 1)) && n.nextPid == Word(k.nextPid + 1)
    && n.tasks[child].quantum == father.quantum && n.tasks[child].programBreak == father.programBreak
    && n.tasks[child].pending == Nothing && n.tasks[child].state == father.state
    && (e.EClone? ==> n.tasks[child].dir == father.dir && n.memory == k.memory)
    && (forall t: Tid :: t != child ==> n.tasks[t] == k.tasks[t])
    && n.queues == k.queues[FREE := k.queues[FREE][1..]][READY := k.queues[READY] + [child]]
    && n.current == k.current && n.remaining == k.remaining && n.semaphores == k.semaphores && n.ring == k.ring
    && n.references == k.references[n.tasks[child].dir := k.references[n.tasks[child].dir] + 1]
  }

  lemma SpawnExact(k: Kernel, e: Event, dir: nat)
    requires Shape(k) && k.queues[FREE] != [] && dir < NR_TASKS && k.tasks[k.current].pending == Nothing
    requires e.EClone? ==> dir == k.tasks[k.current].dir
    ensures Shape(Spawn(k, dir).k) && MadeExactly(k, e, Spawn(k, dir))
  {
  }

  /** fork and clone make a task exactly when they can, and say so; otherwise nothing has changed. */
  lemma MakesTask(k: Kernel, e: Event)
    requires Inv(k) && Enabled(k, e) && (e.EFork? || e.EClone?)
    ensures CanMake(k, e) ==> MadeExactly(k, e, Outcome(k, e))
    ensures !CanMake(k, e) ==>
              Outcome(k, e) == Step(k, Returns(if e.EClone? && k.queues[FREE] != [] then -14 else -12), [])
  {
    hide QueuesOk, BlockedOk, ReferencesOk, MemoryOk, SemaphoresOk, ReadsOk, MadeExactly;
    if e.EFork? {
      ForkRefused(k);
      if ForkSucceeds(k) {
        ForkIs(k);
        SpawnExact(SpaceBuilt(k), e, ChildDirectory(k));
        MadeOverSpace(k, e, SpaceBuilt(k));
      }
    } else if CanMake(k, e) {
      SpawnExact(k, e, k.tasks[k.current].dir);
    }
  }

  // Building the child's space does not matter to any of it.
  lemma MadeOverSpace(k: Kernel, e: Event, b: Kernel)
    requires Inv(k) && Enabled(k, e) && e.EFork? && k.queues[FREE] != []
    requires b == k.(memory := b.memory) && Shape(b) && MadeExactly(b, e, Outcome(k, e))
    ensures MadeExactly(k, e, Outcome(k, e))
  {
    hide QueuesOk, StatesOk, BlockedOk, ReferencesOk, ImagesOk, SemaphoresOk, ReadsOk, Sound, Coherent;
    hide MemoryOk, Outcome;
  }

  // ---------- exit ----------

  /** An exit puts the task without a pid last in the free queue and leaves its directory a user less. */
  lemma ExitLeaves(k: Kernel, reclaims: bool)
    requires Inv(k) && Enabled(k, EExit(reclaims))
    ensures var s, d := Outcome(k, EExit(reclaims)), k.tasks[k.current].dir;
            && s.reply == NoReply && s.got == []
            && s.k.tasks[k.current].pid == -1
            && s.k.queues[FREE] == k.queues[FREE] + [k.current]
            && (forall h :: 0 <= h < NR_QUEUES && h != FREE && h != READY ==> s.k.queues[h] == k.queues[h])
            && s.k.references == k.references[d := k.references[d] - 1]
            && s.k.semaphores == k.semaphores && s.k.ring == k.ring && s.k.nextPid == k.nextPid
            && s.k.tasks == k.tasks[k.current := k.tasks[k.current].(pid := -1)]
                                   [s.k.current := k.tasks[s.k.current].(state := ST_RUN)]
  {
    hide QueuesOk, StatesOk, BlockedOk, ReferencesOk, ImagesOk, SemaphoresOk, ReadsOk, Sound, Coherent;
    hide MemoryOk, FreeUserPages;
    LeavingMemory(k, reclaims);
    SchedNextUntouched(Leaving(k, reclaims));
    ExitNext(k, reclaims);
  }

  // The task that runs next is another one.
  lemma ExitNext(k: Kernel, reclaims: bool)
    requires Inv(k) && Enabled(k, EExit(reclaims))
    ensures Next(k, EExit(reclaims)).current != k.current
  {
    hide StatesOk, BlockedOk, ReferencesOk, ImagesOk, SemaphoresOk, ReadsOk, MemoryOk, Outcome;
    ExitSwitches(k, reclaims);
    if k.queues[READY] != [] { assert k.queues[READY][0] in k.queues[READY]; }
  }

  // ---------- Semaphores ----------

  // Everything but semaphore n and its queue is as it was.
  ghost predicate OnlySemaphore(k: Kernel, m: Kernel, n: int)
    requires Shape(k) && Shape(m) && SemNumber(n)
  {
    && m == k.(semaphores := m.semaphores, queues := m.queues)
    && (forall i :: 0 <= i < NR_SEMAPHORES && i != n ==> m.semaphores[i] == k.semaphores[i])
    && (forall h :: 0 <= h < NR_QUEUES && h != SemQueue(n) ==> m.queues[h] == k.queues[h])
  }

  /** An initialisation succeeds with 0 exactly on a semaphore without owner, and makes the caller owner. */
  lemma SemInitExact(k: Kernel, n: int, value: int)
    requires Inv(k) && Enabled(k, ESemInit(n, value))
    ensures var s := Outcome(k, ESemInit(n, value));
            if 0 <= n < 20 && k.semaphores[n].owner == -1 then
              && s.reply == Returns(0) && OnlySemaphore(k, s.k, n) && s.k.queues[SemQueue(n)] == []
              && s.k.semaphores[n].owner == k.tasks[k.current].pid && s.k.semaphores[n].initialised
              && s.k.semaphores[n].counter == if value < 0x8000_0000 then value else value - 0x1_0000_0000
            else s == Step(k, Returns(-119), [])
  {
    hide QueuesOk, StatesOk, BlockedOk, ReferencesOk, ImagesOk, SemaphoresOk, ReadsOk, Sound, Coherent, MemoryOk;
  }

  /** A wait takes a unit and returns 0 if there is one, and otherwise puts the caller last in the queue. */
  lemma SemWaitExact(k: Kernel, n: int)
    requires Inv(k) && Enabled(k, ESemWait(n))
    ensures var s := Outcome(k, ESemWait(n));
            if !(0 <= n < 20) then s == Step(k, Returns(-119), [])
            else if k.semaphores[n].counter > 0 then
              && s.reply == Returns(0) && OnlySemaphore(k, s.k, n)
              && s.k.queues == k.queues
              && s.k.semaphores[n] == k.semaphores[n].(counter := k.semaphores[n].counter - 1)
            else
              && s.reply == Blocks && s.k.semaphores == k.semaphores
              && s.k.queues[SemQueue(n)] == k.queues[SemQueue(n)] + [k.current]
              && s.k.tasks == k.tasks[k.current := k.tasks[k.current].(pending := InSemWait(n), state := ST_BLOCKED)]
                                     [s.k.current := k.tasks[s.k.current].(state := ST_RUN)]
              && (forall h :: 0 <= h < NR_QUEUES && h != READY && h != SemQueue(n) ==> s.k.queues[h] == k.queues[h])
              && SwitchedOnly(k, s.k)
  {
    hide BlockedOk, ReferencesOk, ImagesOk, MemoryOk, SemaphoresOk, ReadsOk;
    if k.queues[READY] != [] { assert k.queues[READY][0] in k.queues[READY]; }
  }

  /** A signal returns 0 whenever there is such a semaphore: it wakes the first waiter or adds a unit. */
  lemma SemSignalExact(k: Kernel, n: int)
    requires Inv(k) && Enabled(k, ESemSignal(n))
    ensures var s := Outcome(k, ESemSignal(n));
            if !(0 <= n < 20) then s == Step(k, Returns(-119), [])
            else if k.queues[SemQueue(n)] == [] then
              && s.reply == Returns(0) && OnlySemaphore(k, s.k, n) && s.k.queues == k.queues
              && s.k.semaphores[n] == k.semaphores[n].(counter := k.semaphores[n].counter + 1)
            else
              var t := k.queues[SemQueue(n)][0];
              && s.reply == Returns(0) && s.k == k.(tasks := s.k.tasks, queues := s.k.queues)
              && s.k.queues == k.queues[SemQueue(n) := k.queues[SemQueue(n)][1..]][READY := k.queues[READY] + [t]]
              && s.k.tasks == k.tasks[t := k.tasks[t].(state := ST_READY)]
  {
    hide QueuesOk, StatesOk, BlockedOk, ReferencesOk, ImagesOk, SemaphoresOk, ReadsOk, Sound, Coherent, MemoryOk;
  }

  /** A destruction returns 0 to the owner alone, takes the owner away and readies all waiters in order. */
  lemma SemDestroyExact(k: Kernel, n: int)
    requires Inv(k) && Enabled(k, ESemDestroy(n))
    ensures var s := Outcome(k, ESemDestroy(n));
            if 0 <= n < 20 && k.semaphores[n].owner == k.tasks[k.current].pid then
              && s.reply == Returns(0)
              && s.k.semaphores == k.semaphores[n := k.semaphores[n].(owner := -1)]
              && s.k.queues[SemQueue(n)] == []
              && s.k.queues[READY] == k.queues[READY] + k.queues[SemQueue(n)]
              && (forall h :: 0 <= h < NR_QUEUES && h != READY && h != SemQueue(n) ==>
                    s.k.queues[h] == k.queues[h])
              && (forall t: Tid :: s.k.tasks[t] ==
                    if t in k.queues[SemQueue(n)] then k.tasks[t].(state := ST_READY) else k.tasks[t])
              && s.k == k.(semaphores := s.k.semaphores, queues := s.k.queues, tasks := s.k.tasks)
            else s == Step(k, Returns(-119), [])
  {
    hide QueuesOk, StatesOk, BlockedOk, ReferencesOk, ImagesOk, SemaphoresOk, ReadsOk, Sound, Coherent, MemoryOk;
    if SemNumber(n) {
      var m := k.(semaphores := k.semaphores[n := k.semaphores[n].(owner := -1)]);
      WakeAllOrder(m, SemQueue(n));
      WakeAllTasks(m, SemQueue(n));
    }
  }

  lemma {:induction false} WakeAllTasks(k: Kernel, h: int)
    requires Shape(k) && KEYBOARD <= h < NR_QUEUES
    ensures var n := WakeAll(k, h);
            && |n.tasks| == NR_TASKS && n == k.(queues := n.queues, tasks := n.tasks)
            && forall t: Tid ::
                 n.tasks[t] == if t in k.queues[h] then k.tasks[t].(state := ST_READY) else k.tasks[t]
    decreases |k.queues[h]|
  {
    if k.queues[h] == [] {
    } else {
      assert k.queues[h] == [k.queues[h][0]] + k.queues[h][1..];
      WakeAllTasks(Wake(k, h), h);
    }
  }

  /** A resumed waiter gets 0 if and only if the semaphore has an owner then; nothing else changes. */
  lemma ResumeWaitExact(k: Kernel, n: int)
    requires Inv(k) && Enabled(k, EResume) && k.tasks[k.current].pending == InSemWait(n)
    ensures 0 <= n < 20
    ensures var s := Outcome(k, EResume);
            && (s.reply == Returns(0) <==> k.semaphores[n].owner != -1)
            && (s.reply == Returns(-119) <==> k.semaphores[n].owner == -1)
            && s.k == k.(tasks := k.tasks[k.current := k.tasks[k.current].(pending := Nothing)])
  {
    hide QueuesOk, BlockedOk, ReferencesOk, MemoryOk, SemaphoresOk, ReadsOk;
  }

  // ---------- Keyboard ----------

  /**
   A keystroke goes to the end of the ring unless that is full; it readies the first reader, and nobody
   else, exactly when the ring then holds what that one still wants or the key was dropped.
   */
  lemma KeyExact(k: Kernel, key: Byte)
    requires Inv(k) && Enabled(k, EKey(key))
    ensures var s, q := Outcome(k, EKey(key)), k.queues[KEYBOARD];
            var full := |k.ring| == 4095;
            && s.reply == NoReply && s.k == k.(ring := s.k.ring, queues := s.k.queues, tasks := s.k.tasks)
            && s.k.ring == (if full then k.ring else k.ring + [key])
            && if q != [] && (full || k.tasks[q[0]].toRead <= |s.k.ring|) then
                 && s.k.queues == k.queues[KEYBOARD := q[1..]][READY := k.queues[READY] + [q[0]]]
                 && s.k.tasks == k.tasks[q[0] := k.tasks[q[0]].(state := ST_READY)]
               else s.k.queues == k.queues && s.k.tasks == k.tasks
  {
    hide QueuesOk, StatesOk, BlockedOk, ReferencesOk, ImagesOk, SemaphoresOk, ReadsOk, Sound, Coherent, MemoryOk;
  }

  // The read a step begins or goes on with, and how far it had come.
  ghost predicate OnRead(k: Kernel, e: Event, size: int, toRead: int, alreadyRead: int)
    requires Shape(k)
  {
    if e.ERead? then size == e.size && toRead == size && alreadyRead == 0
    else
      && e.EResume? && k.tasks[k.current].pending == InRead(size)
      && toRead == k.tasks[k.current].toRead && alreadyRead == k.tasks[k.current].alreadyRead
  }

  // One pass of the loop, from b, in which the read has been begun.
  lemma PassAnswersOrBlocks(b: Kernel, size: int)
    requires Shape(b) && Shape(ReadPass(b, size).k) && QueuesOk(b) && b.current != b.idle && 0 <= size
    ensures var s, c, task := ReadPass(b, size), b.current, b.tasks[b.current];
            var alone := b.queues[KEYBOARD] == [];
            && (s.reply == Blocks <==> task.toRead > 0 && (!alone || size > |b.ring|))
            && (s.reply == Blocks ==>
                  && s.got == (if alone && |b.ring| == 4095 then b.ring else [])
                  && s.k.queues[KEYBOARD] == b.queues[KEYBOARD] + [c]
                  && s.k.tasks[c].pending == InRead(size) && s.k.tasks[c].state == ST_BLOCKED
                  && s.k.tasks[c].toRead == task.toRead - |s.got|
                  && s.k.tasks[c].alreadyRead == task.alreadyRead + |s.got|)
            && (s.reply != Blocks ==>
                  && s.got == (if task.toRead > 0 then b.ring[..size] else [])
                  && s.reply == Returns(task.alreadyRead + |s.got|)
                  && s.k.queues == b.queues && s.k.tasks[c].pending == Nothing)
            && b.ring == s.got + s.k.ring
  {
    if b.queues[READY] != [] { assert b.queues[READY][0] in b.queues[READY]; }
  }

  /**
   A read blocks, last in the keyboard queue, exactly when it still wants keys and somebody else is
   waiting or the ring holds fewer than it asked for; a full ring that nobody waits for is emptied
   for it first. Otherwise the answer counts the keys handed over so far and now.
   */
  lemma ReadAnswersOrBlocks(k: Kernel, e: Event, size: int, toRead: int, alreadyRead: int)
    requires Inv(k) && Enabled(k, e) && OnRead(k, e, size, toRead, alreadyRead)
    ensures var s, c := Outcome(k, e), k.current;
            var alone := k.queues[KEYBOARD] == [];
            && (s.reply == Blocks <==> toRead > 0 && (!alone || size > |k.ring|))
            && (s.reply == Blocks ==>
                  && s.got == (if alone && |k.ring| == 4095 then k.ring else [])
                  && s.k.queues[KEYBOARD] == k.queues[KEYBOARD] + [c]
                  && s.k.tasks[c].pending == InRead(size) && s.k.tasks[c].state == ST_BLOCKED
                  && s.k.tasks[c].toRead == toRead - |s.got|
                  && s.k.tasks[c].alreadyRead == alreadyRead + |s.got|)
            && (s.reply != Blocks ==>
                  && s.got == (if toRead > 0 then k.ring[..size] else [])
                  && s.reply == Returns(alreadyRead + |s.got|)
                  && s.k.queues == k.queues && s.k.tasks[c].pending == Nothing)
            && k.ring == s.got + s.k.ring
  {
    hide BlockedOk, ReferencesOk, MemoryOk, ImagesOk, SemaphoresOk, ReadPass;
    var b := if e.ERead? then BeginRead(k, size) else k;
    assert b.queues == k.queues && b.ring == k.ring && Shape(b);
    assert Outcome(k, e) == ReadPass(b, size);
    PassAnswersOrBlocks(b, size);
  }
}
