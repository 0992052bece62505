/** The path of every key from the interrupt to a reader, over every run. */
module KeyboardStream {
  import opened Params
  import opened Paging
  import opened Machine
  import opened TaskQueues
  import opened Invariants
  import opened SemaphoreLedger
  import opened SpaceRuns

  // ---------- Conservation ----------

  // The key taken into the ring in this step; a full ring drops it.
  ghost function Accepted(k: Kernel, e: Event): seq<Byte>
    requires Shape(k)
  {
    if e.EKey? && |k.ring| < RING_SIZE - 1 then [e.key] else []
  }

  // The keys copied to the caller's buffer in this step.
  ghost function Got(k: Kernel, e: Event): seq<Byte>
    requires Inv(k) && Enabled(k, e)
  {
    Outcome(k, e).got
  }

  // Readers waiting for keys, their demands and the keys themselves are as before.
  ghost predicate Quiet(k: Kernel, n: Kernel)
    requires Shape(k) && Shape(n)
  {
    && n.ring == k.ring && n.queues[KEYBOARD] == k.queues[KEYBOARD]
    && forall t :: t in k.queues[KEYBOARD] ==> n.tasks[t].toRead == k.tasks[t].toRead
  }

  lemma SchedNextQuiet(k: Kernel)
    requires Shape(k)
    ensures Shape(SchedNext(k)) && Quiet(k, SchedNext(k))
  {
  }

  lemma {:induction false} WakeAllQuiet(k: Kernel, h: int)
    requires Shape(k) && KEYBOARD < h < NR_QUEUES
    ensures Shape(WakeAll(k, h)) && Quiet(k, WakeAll(k, h))
    decreases |k.queues[h]|
  {
    if k.queues[h] == [] {
    } else {
      WakeAllQuiet(Wake(k, h), h);
    }
  }

  lemma SpawnQuiet(k: Kernel, dir: nat)
    requires Inv(k) && k.queues[FREE] != [] && dir < NR_TASKS
    ensures Shape(Spawn(k, dir).k) && Quiet(k, Spawn(k, dir).k)
  {
    assert k.queues[FREE][0] in k.queues[FREE];
  }

  lemma ForkQuiet(k: Kernel)
    requires Inv(k) && Enabled(k, EFork)
    ensures ForkReady(k) && Shape(Fork(k).k) && Quiet(k, Fork(k).k) && Fork(k).got == []
  {
    ForkInv(k);
    if k.queues[FREE] != [] && AllocN(k.memory.phys, NUM_PAG_DATA).Allocated? {
      SpawnQuiet(k, FreeDirectory(k.references, 0));
    }
  }

  lemma ExitQuiet(k: Kernel, reclaims: bool)
    requires Inv(k) && Enabled(k, EExit(reclaims))
    ensures Shape(Exit(k, reclaims)) && Quiet(k, Exit(k, reclaims))
  {
    LeavingMemory(k, reclaims);
    SchedNextQuiet(Leaving(k, reclaims));
  }

  lemma CloneQuiet(k: Kernel, accessible: bool)
    requires Inv(k) && Enabled(k, EClone(accessible))
    ensures var s := Clone(k, accessible);
            Shape(s.k) && Quiet(k, s.k) && s.got == []
  {
    if k.queues[FREE] != [] { SpawnQuiet(k, k.tasks[k.current].dir); }
  }

  lemma TickQuiet(k: Kernel)
    requires Inv(k)
    ensures Shape(ClockTick(k)) && Quiet(k, ClockTick(k))
  {
    SchedNextQuiet(Park(k.(remaining := k.remaining - 1), READY));
  }

  lemma ProcessQuiet(k: Kernel, e: Event)
    requires Inv(k) && Enabled(k, e)
    requires e.EFork? || e.EClone? || e.EExit? || e.ESbrk? || e.ETick?
    ensures Quiet(k, Next(k, e)) && Got(k, e) == []
  {
    hide QueuesOk, StatesOk, BlockedOk, ReferencesOk, MemoryOk, ImagesOk, SemaphoresOk, ReadsOk;
    match e
    case EFork => ForkQuiet(k);
    case EClone(accessible) => CloneQuiet(k, accessible);
    case EExit(reclaims) => ExitQuiet(k, reclaims);
    case ESbrk(_) =>
    case ETick => TickQuiet(k);
  }

  lemma SemaphoreQuiet(k: Kernel, e: Event)
    requires Inv(k) && Enabled(k, e)
    requires e.ESemInit? || e.ESemWait? || e.ESemSignal? || e.ESemDestroy?
             || (e.EResume? && k.tasks[k.current].pending.InSemWait?)
    ensures Quiet(k, Next(k, e)) && Got(k, e) == []
  {
    hide QueuesOk, StatesOk, BlockedOk, ReferencesOk, MemoryOk, ImagesOk, SemaphoresOk, ReadsOk;
    match e
    case ESemInit(_, _) =>
    case ESemWait(n) =>
      if SemNumber(n) { SchedNextQuiet(Park(Suspend(k, InSemWait(n)), SemQueue(n))); }
    case ESemSignal(n) =>
      if SemNumber(n) && k.queues[SemQueue(n)] != [] {
        assert k.queues[SemQueue(n)][0] in k.queues[SemQueue(n)];
      }
    case ESemDestroy(n) =>
      if SemNumber(n) {
        WakeAllQuiet(k.(semaphores := k.semaphores[n := k.semaphores[n].(owner := -1)]), SemQueue(n));
      }
    case EResume =>
  }

  // ---------- One pass of a read ----------

  // The current task takes up or goes on with a read of this size in this step.
  ghost predicate Reads(k: Kernel, e: Event, size: int)
    requires Shape(k)
  {
    e == ERead(size) || (e.EResume? && k.tasks[k.current].pending == InRead(size))
  }

  // The state in which the loop of sys_read_keyboard is entered.
  ghost function LoopStart(k: Kernel, e: Event, size: int): Kernel
    requires Shape(k) && Reads(k, e, size)
  {
    if e.ERead? then BeginRead(k, size) else k
  }

  lemma ReadStep(k: Kernel, e: Event, size: int)
    requires Inv(k) && Enabled(k, e) && Reads(k, e, size)
    ensures var b := LoopStart(k, e, size);
            && Inv(b) && InLoop(b, size) && Inv(ReadPass(b, size).k)
            && Outcome(k, e) == ReadPass(b, size)
            && b.ring == k.ring && b.queues == k.queues && b.current == k.current
  {
    if e.ERead? { BeginReadInv(k, size); }
    ReadPassInv(LoopStart(k, e, size), size);
  }

  // What the pass leaves behind.
  lemma PassEffect(b: Kernel, size: int)
    requires Inv(b) && InLoop(b, size) && Shape(ReadPass(b, size).k)
    ensures var s := ReadPass(b, size);
            && b.ring == s.got + s.k.ring
            && (s.reply == Blocks <==>
                  b.tasks[b.current].toRead > 0 && !(b.queues[KEYBOARD] == [] && size <= |b.ring|))
            && (s.reply == Blocks ==>
                  && s.k.queues[KEYBOARD] == b.queues[KEYBOARD] + [b.current]
                  && s.k.tasks[b.current].pending == InRead(size)
                  && s.k.tasks[b.current].toRead == b.tasks[b.current].toRead - |s.got|
                  && (s.got == [] || (b.queues[KEYBOARD] == [] && |s.got| == RING_SIZE - 1 && s.k.ring == [])))
            && (s.reply != Blocks ==> s.k.queues[KEYBOARD] == b.queues[KEYBOARD])
            && (forall t :: t in b.queues[KEYBOARD] ==> s.k.tasks[t].toRead == b.tasks[t].toRead)
  {
    hide QueuesOk, StatesOk, BlockedOk, ReferencesOk, MemoryOk, ImagesOk, SemaphoresOk, ReadsOk;
    var task := b.tasks[b.current];
    if task.toRead <= 0 {
    } else if b.queues[KEYBOARD] == [] && 0 <= size <= |b.ring| {
    } else if b.queues[KEYBOARD] == [] && |b.ring| == RING_SIZE - 1 {
      SchedNextQuiet(Park(Suspend(Hand(b, |b.ring|), InRead(size)), KEYBOARD));
    } else {
      SchedNextQuiet(Park(Suspend(b, InRead(size)), KEYBOARD));
    }
  }

  /** Every step keeps the stream: unread keys and new keys are what was read and what is left. */
  lemma StepStream(k: Kernel, e: Event)
    requires Inv(k) && Enabled(k, e)
    ensures k.ring + Accepted(k, e) == Got(k, e) + Next(k, e).ring
  {
    hide QueuesOk, StatesOk, BlockedOk, ReferencesOk, MemoryOk, ImagesOk, SemaphoresOk, ReadsOk;
    if e.EKey? {
      KeyStream(k, e.key);
    } else if e.ERead? {
      ReadStep(k, e, e.size);
      PassEffect(LoopStart(k, e, e.size), e.size);
    } else if e.EResume? && k.tasks[k.current].pending.InRead? {
      var size := k.tasks[k.current].pending.size;
      ReadStep(k, e, size);
      PassEffect(k, size);
    } else if e.EFork? || e.EClone? || e.EExit? || e.ESbrk? || e.ETick? {
      ProcessQuiet(k, e);
    } else {
      SemaphoreQuiet(k, e);
    }
  }

  lemma KeyStream(k: Kernel, key: Byte)
    requires Inv(k)
    ensures Shape(Key(k, key))
    ensures k.ring + Accepted(k, EKey(key)) == Key(k, key).ring
  {
  }

  // What the steps of a run answer and hand over, step by step.
  ghost function RepliesIn(k: Kernel, run: seq<Event>): seq<Reply>
    requires Inv(k) && Legal(k, run)
    decreases |run|
  {
    if run == [] then [] else [Outcome(k, run[0]).reply] + RepliesIn(Next(k, run[0]), run[1..])
  }

  ghost function SlicesIn(k: Kernel, run: seq<Event>): seq<seq<Byte>>
    requires Inv(k) && Legal(k, run)
    decreases |run|
  {
    if run == [] then [] else [Got(k, run[0])] + SlicesIn(Next(k, run[0]), run[1..])
  }

  ghost function AcceptedIn(k: Kernel, run: seq<Event>): seq<Byte>
    requires Inv(k) && Legal(k, run)
    decreases |run|
  {
    if run == [] then [] else Accepted(k, run[0]) + AcceptedIn(Next(k, run[0]), run[1..])
  }

  ghost function GotIn(k: Kernel, run: seq<Event>): seq<Byte>
    requires Inv(k) && Legal(k, run)
    decreases |run|
  {
    if run == [] then [] else Got(k, run[0]) + GotIn(Next(k, run[0]), run[1..])
  }

  /**
   Over every run, with any number of readers in any interleaving, the keys handed out in order
   followed by those still in the ring are the unread keys at the start followed by those accepted.
   */
  lemma {:induction false} StreamConserved(k: Kernel, run: seq<Event>)
    requires Inv(k) && Legal(k, run)
    ensures k.ring + AcceptedIn(k, run) == GotIn(k, run) + Run(k, run).ring
    decreases |run|
  {
    if run == [] {
    } else {
      var e, n := run[0], Next(k, run[0]);
      StepStream(k, e);
      StreamConserved(n, run[1..]);
      Chain(k.ring, Accepted(k, e), Got(k, e), n.ring,
            AcceptedIn(n, run[1..]), GotIn(n, run[1..]), Run(n, run[1..]).ring);
      assert Run(k, run) == Run(n, run[1..]);
    }
  }

  /**
   A read hands over its whole answer, as one slice in the step that completes it, if and only if
   it asks for less than the ring's size. A longer one returns the next multiple of the ring's
   capacity, and its last slice is empty.
   */
  lemma ReadExact(k: Kernel, e: Event, size: int)
    requires Inv(k) && Enabled(k, e) && Reads(k, e, size) && size > 0
    ensures var s := Outcome(k, e);
            && (s.reply.Returns? ==>
                  ((s.reply.value == size && |s.got| == size) <==> size < RING_SIZE))
            && (s.reply.Returns? && size >= RING_SIZE ==>
                  && size <= s.reply.value < size + (RING_SIZE - 1)
                  && s.reply.value % (RING_SIZE - 1) == 0 && s.got == [])
            && (!s.reply.Returns? ==> s.reply == Blocks)
            && (s.reply == Blocks && size < RING_SIZE ==> s.got == [])
  {
    ReadStep(k, e, size);
    ReadPassExact(LoopStart(k, e, size), size);
  }

  lemma ReadPassExact(b: Kernel, size: int)
    requires Inv(b) && InLoop(b, size) && Progress(b.tasks[b.current], size)
    ensures var s := ReadPass(b, size);
            && (s.reply.Returns? ==>
                  ((s.reply.value == size && |s.got| == size) <==> size < RING_SIZE))
            && (s.reply.Returns? && size >= RING_SIZE ==>
                  && size <= s.reply.value < size + (RING_SIZE - 1)
                  && s.reply.value % (RING_SIZE - 1) == 0 && s.got == [])
            && (!s.reply.Returns? ==> s.reply == Blocks)
            && (s.reply == Blocks && size < RING_SIZE ==> s.got == [])
  {
  }

  // ---------- A read from its call to its answer ----------

  // What t still has to read is as before, and it is live.
  ghost predicate SameRead(k: Kernel, n: Kernel, t: Tid)
    requires Shape(k) && Shape(n)
  {
    n.tasks[t].pending == k.tasks[t].pending && t !in n.queues[FREE]
  }

  lemma {:induction false} WakeAllSameRead(k: Kernel, h: int, t: Tid)
    requires Shape(k) && KEYBOARD <= h < NR_QUEUES && t !in k.queues[FREE]
    ensures Shape(WakeAll(k, h)) && SameRead(k, WakeAll(k, h), t)
    decreases |k.queues[h]|
  {
    if k.queues[h] == [] {
    } else {
      WakeAllSameRead(Wake(k, h), h, t);
    }
  }

  lemma SchedNextSameRead(k: Kernel, t: Tid)
    requires Shape(k) && t !in k.queues[FREE]
    ensures Shape(SchedNext(k)) && SameRead(k, SchedNext(k), t)
  {
  }

  lemma OtherReadProcess(k: Kernel, e: Event, t: Tid)
    requires Inv(k) && Enabled(k, e) && t != k.current && t !in k.queues[FREE]
    requires e.EFork? || e.EClone? || e.EExit? || e.ESbrk? || e.ETick?
    ensures SameRead(k, Next(k, e), t)
  {
    hide QueuesOk, StatesOk, BlockedOk, ReferencesOk, MemoryOk, ImagesOk, SemaphoresOk, ReadsOk;
    match e
    case EFork => IsForkReady(k);
    case EClone(_) =>
    case EExit(reclaims) =>
      LeavingMemory(k, reclaims);
      SchedNextSameRead(Leaving(k, reclaims), t);
    case ESbrk(_) =>
    case ETick => SchedNextSameRead(Park(k.(remaining := k.remaining - 1), READY), t);
  }

  lemma OtherReadCall(k: Kernel, e: Event, t: Tid)
    requires Inv(k) && Enabled(k, e) && t != k.current && t !in k.queues[FREE]
    requires !(e.EFork? || e.EClone? || e.EExit? || e.ESbrk? || e.ETick?)
    ensures SameRead(k, Next(k, e), t)
  {
    hide QueuesOk, StatesOk, BlockedOk, ReferencesOk, MemoryOk, ImagesOk, SemaphoresOk, ReadsOk;
    match e
    case ESemInit(_, _) =>
    case ESemWait(n) =>
      if SemNumber(n) { SchedNextSameRead(Park(Suspend(k, InSemWait(n)), SemQueue(n)), t); }
    case ESemSignal(_) =>
    case ESemDestroy(n) =>
      if SemNumber(n) {
        WakeAllSameRead(k.(semaphores := k.semaphores[n := k.semaphores[n].(owner := -1)]), SemQueue(n), t);
      }
    case ERead(size) =>
      StepInv(k, e);
      ReadPassSameRead(BeginRead(k, size), size, t);
    case EResume =>
      if k.tasks[k.current].pending.InRead? {
        StepInv(k, e);
        ReadPassSameRead(k, k.tasks[k.current].pending.size, t);
      }
    case EKey(_) =>
  }

  lemma ReadPassSameRead(k: Kernel, size: int, t: Tid)
    requires Shape(k) && t != k.current && t !in k.queues[FREE]
    ensures Shape(ReadPass(k, size).k) ==> SameRead(k, ReadPass(k, size).k, t)
  {
    SchedNextSameRead(Park(Suspend(k, InRead(size)), KEYBOARD), t);
    SchedNextSameRead(Park(Suspend(Hand(k, |k.ring|), InRead(size)), KEYBOARD), t);
  }

  // A task made by a step runs no call; nobody else leaves the free queue.
  lemma FreeOrigin(k: Kernel, e: Event, t: Tid)
    requires Inv(k) && Enabled(k, e) && t in k.queues[FREE] && Live(Next(k, e), t)
    ensures Next(k, e).tasks[t].pending == Nothing
  {
    hide StatesOk, BlockedOk, ReferencesOk, MemoryOk, ImagesOk, SemaphoresOk, ReadsOk;
    match e
    case EFork =>
      ForkRefused(k);
      if ForkSucceeds(k) {
        ForkIs(k);
        SpawnOrigin(SpaceBuilt(k), ChildDirectory(k), t);
      }
    case EClone(_) => if k.queues[FREE] != [] { SpawnOrigin(k, k.tasks[k.current].dir, t); }
    case EExit(reclaims) =>
      LeavingMemory(k, reclaims);
      SchedNextUntouched(Leaving(k, reclaims));
    case ESbrk(_) =>
    case _ => SparesMemory(k, e);
  }

  lemma SpawnOrigin(k: Kernel, dir: nat, t: Tid)
    requires Shape(k) && k.queues[FREE] != [] && dir < NR_TASKS && k.tasks[k.current].pending == Nothing
    requires t in k.queues[FREE]
    ensures var n := Spawn(k, dir).k;
            Shape(n) && (Live(n, t) ==> n.tasks[t].pending == Nothing)
  {
    SpawnMemory(k, dir);
    assert k.queues[FREE] == [k.queues[FREE][0]] + k.queues[FREE][1..];
  }

  lemma CurrentOrigin(k: Kernel, e: Event)
    requires Inv(k) && Enabled(k, e)
    requires Live(Next(k, e), k.current) && Next(k, e).tasks[k.current].pending.InRead?
    ensures if e.ERead? then Next(k, e).tasks[k.current].pending == InRead(e.size)
            else Live(k, k.current) && Next(k, e).tasks[k.current].pending == k.tasks[k.current].pending
  {
    hide StatesOk, BlockedOk, ReferencesOk, MemoryOk, ImagesOk, SemaphoresOk, ReadsOk;
    if e.ERead? || (e.EResume? && k.tasks[k.current].pending.InRead?) {
      var size := if e.ERead? then e.size else k.tasks[k.current].pending.size;
      var b := LoopStart(k, e, size);
      ReadStep(k, e, size);
      PassEffect(b, size);
      if ReadPass(b, size).reply != Blocks { PassSettles(b, size); }
    } else {
      CallSettles(k, e);
    }
  }

  // A pass that does not block leaves no read under way.
  lemma PassSettles(k: Kernel, size: int)
    requires Shape(k) && Shape(ReadPass(k, size).k) && ReadPass(k, size).reply != Blocks
    ensures ReadPass(k, size).k.tasks[k.current].pending == Nothing
  {
  }

  // Nor does any other call.
  lemma CallSettles(k: Kernel, e: Event)
    requires Inv(k) && Enabled(k, e) && !e.ERead? && !(e.EResume? && k.tasks[k.current].pending.InRead?)
    ensures !Next(k, e).tasks[k.current].pending.InRead?
  {
    hide QueuesOk, StatesOk, BlockedOk, ReferencesOk, MemoryOk, ImagesOk, SemaphoresOk, ReadsOk, Outcome;
    if e.EFork? || e.EClone? || e.EExit? || e.ESbrk? || e.ETick? {
      ProcessSettles(k, e);
    } else {
      SemaphoreSettles(k, e);
    }
  }

  lemma ProcessSettles(k: Kernel, e: Event)
    requires Inv(k) && Enabled(k, e) && (e.EFork? || e.EClone? || e.EExit? || e.ESbrk? || e.ETick?)
    ensures !Next(k, e).tasks[k.current].pending.InRead?
  {
    hide StatesOk, BlockedOk, ReferencesOk, MemoryOk, ImagesOk, SemaphoresOk, ReadsOk, Sound;
    match e
    case EFork => if k.queues[FREE] != [] { assert k.queues[FREE][0] in k.queues[FREE]; } IsForkReady(k);
    case EClone(_) => if k.queues[FREE] != [] { assert k.queues[FREE][0] in k.queues[FREE]; }
    case EExit(reclaims) =>
      LeavingMemory(k, reclaims);
      SchedNextSettles(Leaving(k, reclaims), k.current);
    case ESbrk(_) =>
    case ETick => SchedNextSettles(Park(k.(remaining := k.remaining - 1), READY), k.current);
  }

  lemma SemaphoreSettles(k: Kernel, e: Event)
    requires Inv(k) && Enabled(k, e) && !e.ERead? && !(e.EResume? && k.tasks[k.current].pending.InRead?)
    requires !(e.EFork? || e.EClone? || e.EExit? || e.ESbrk? || e.ETick?)
    ensures !Next(k, e).tasks[k.current].pending.InRead?
  {
    hide StatesOk, BlockedOk, ReferencesOk, MemoryOk, ImagesOk, SemaphoresOk, ReadsOk, Sound;
    match e
    case ESemInit(_, _) =>
    case ESemWait(n) =>
      if SemNumber(n) { SchedNextSettles(Park(Suspend(k, InSemWait(n)), SemQueue(n)), k.current); }
    case ESemSignal(_) =>
    case ESemDestroy(n) =>
      if SemNumber(n) {
        WakeAllSettles(k.(semaphores := k.semaphores[n := k.semaphores[n].(owner := -1)]), SemQueue(n), k.current);
      }
    case EResume =>
    case EKey(_) =>
  }

  lemma SchedNextSettles(k: Kernel, t: Tid)
    requires Shape(k)
    ensures Shape(SchedNext(k)) && SchedNext(k).tasks[t].pending == k.tasks[t].pending
  {
  }

  lemma {:induction false} WakeAllSettles(k: Kernel, h: int, t: Tid)
    requires Shape(k) && KEYBOARD <= h < NR_QUEUES
    ensures Shape(WakeAll(k, h)) && WakeAll(k, h).tasks[t].pending == k.tasks[t].pending
    decreases |k.queues[h]|
  {
    if k.queues[h] == [] {
    } else {
      WakeAllSettles(Wake(k, h), h, t);
    }
  }

  // A read under way after a step was under way before it or has just been begun by the current task.
  lemma ReadOrigin(k: Kernel, e: Event, t: Tid)
    requires Inv(k) && Enabled(k, e)
    requires Live(Next(k, e), t) && Next(k, e).tasks[t].pending.InRead?
    ensures if t == k.current && e.ERead? then Next(k, e).tasks[t].pending == InRead(e.size)
            else Live(k, t) && Next(k, e).tasks[t].pending == k.tasks[t].pending
  {
    hide StatesOk, BlockedOk, ReferencesOk, MemoryOk, ImagesOk, SemaphoresOk, ReadsOk;
    if t in k.queues[FREE] {
      FreeOrigin(k, e, t);
    } else if t == k.current {
      CurrentOrigin(k, e);
    } else if e.EFork? || e.EClone? || e.EExit? || e.ESbrk? || e.ETick? {
      OtherReadProcess(k, e, t);
    } else {
      OtherReadCall(k, e, t);
    }
  }

  lemma ReadOrigins(k: Kernel, e: Event)
    requires Inv(k) && Enabled(k, e)
    ensures forall t: Tid :: Live(Next(k, e), t) && Next(k, e).tasks[t].pending.InRead? ==>
              if t == k.current && e.ERead? then Next(k, e).tasks[t].pending == InRead(e.size)
              else Live(k, t) && Next(k, e).tasks[t].pending == k.tasks[t].pending
  {
    hide QueuesOk, StatesOk, BlockedOk, ReferencesOk, MemoryOk, ImagesOk, SemaphoresOk, ReadsOk, Outcome, Live;
    forall t: Tid | Live(Next(k, e), t) && Next(k, e).tasks[t].pending.InRead?
      ensures if t == k.current && e.ERead? then Next(k, e).tasks[t].pending == InRead(e.size)
              else Live(k, t) && Next(k, e).tasks[t].pending == k.tasks[t].pending
    {
      ReadOrigin(k, e, t);
    }
  }

  // The step answers the read of t.
  ghost predicate Answers(k: Kernel, e: Event, t: Tid)
    requires Inv(k) && Enabled(k, e)
  {
    k.current == t && Outcome(k, e).reply.Returns?
  }

  // A read is under way until it is answered, always for the number of keys first asked for.
  lemma StepReading(k: Kernel, e: Event, t: Tid, size: int)
    requires Inv(k) && Enabled(k, e) && Live(k, t) && k.tasks[t].pending == InRead(size)
    requires !Answers(k, e, t)
    ensures Live(Next(k, e), t) && Next(k, e).tasks[t].pending == InRead(size)
    ensures k.current == t && size < RING_SIZE ==> Got(k, e) == []
  {
    hide Outcome, Once, SchedNext;
    hide QueuesOk, StatesOk, BlockedOk, ReferencesOk, MemoryOk, ImagesOk, SemaphoresOk;
    if t == k.current {
      ReadStep(k, e, size);
      PassEffect(k, size);
      SchedNextSameRead(Park(Suspend(k, InRead(size)), KEYBOARD), t);
      SchedNextSameRead(Park(Suspend(Hand(k, |k.ring|), InRead(size)), KEYBOARD), t);
      ReadExact(k, e, size);
    } else if e.EFork? || e.EClone? || e.EExit? || e.ESbrk? || e.ETick? {
      OtherReadProcess(k, e, t);
    } else {
      OtherReadCall(k, e, t);
    }
  }

  ghost predicate Unanswered(k: Kernel, run: seq<Event>, t: Tid)
    requires Inv(k) && Legal(k, run)
    decreases |run|
  {
    run == [] || (!Answers(k, run[0], t) && Unanswered(Next(k, run[0]), run[1..], t))
  }

  // The keys handed to t in the course of a run.
  ghost function HandedTo(k: Kernel, run: seq<Event>, t: Tid): seq<Byte>
    requires Inv(k) && Legal(k, run)
    decreases |run|
  {
    if run == [] then []
    else (if k.current == t then Got(k, run[0]) else []) + HandedTo(Next(k, run[0]), run[1..], t)
  }

  lemma {:induction false} RunReading(k: Kernel, run: seq<Event>, t: Tid, size: int)
    requires Inv(k) && Legal(k, run) && Live(k, t) && k.tasks[t].pending == InRead(size)
    requires Unanswered(k, run, t)
    ensures Live(Run(k, run), t) && Run(k, run).tasks[t].pending == InRead(size)
    ensures size < RING_SIZE ==> HandedTo(k, run, t) == []
    decreases |run|
  {
    hide QueuesOk, StatesOk, ReferencesOk, MemoryOk, SemaphoresOk, ReadsOk, Outcome, Enabled;
    if run == [] {
    } else {
      StepReading(k, run[0], t, size);
      RunReading(Next(k, run[0]), run[1..], t, size);
    }
  }

  /**
   A read that blocks, from its call to its answer: however long it takes and whoever else reads, if
   it fits the ring it is handed nothing until the answer, which is one slice of the length first
   asked for.
   */
  lemma ReadAnswered(k: Kernel, size: int, run: seq<Event>)
    requires Inv(k) && Enabled(k, ERead(size)) && 0 < size < RING_SIZE
    requires Outcome(k, ERead(size)).reply == Blocks
    requires Legal(Next(k, ERead(size)), run) && Unanswered(Next(k, ERead(size)), run, k.current)
    requires var l := Run(Next(k, ERead(size)), run);
             Enabled(l, EResume) && Answers(l, EResume, k.current)
    ensures Got(k, ERead(size)) == [] && HandedTo(Next(k, ERead(size)), run, k.current) == []
    ensures var l := Run(Next(k, ERead(size)), run);
            Outcome(l, EResume).reply == Returns(size) && |Got(l, EResume)| == size
  {
    hide StatesOk, ReferencesOk, MemoryOk, SemaphoresOk, ReadsOk, Legal, Run, Unanswered, HandedTo;
    var t, n := k.current, Next(k, ERead(size));
    ReadBegun(k, size);
    RunReading(n, run, t, size);
    ReadExact(k, ERead(size), size);
    ReadExact(Run(n, run), EResume, size);
  }

  lemma ReadBegun(k: Kernel, size: int)
    requires Inv(k) && Enabled(k, ERead(size)) && 0 < size
    requires Outcome(k, ERead(size)).reply == Blocks
    ensures Live(Next(k, ERead(size)), k.current)
    ensures Next(k, ERead(size)).tasks[k.current].pending == InRead(size)
  {
    hide StatesOk, BlockedOk, ReferencesOk, MemoryOk, ImagesOk, SemaphoresOk, ReadsOk;
    var b := BeginRead(k, size);
    ReadStep(k, ERead(size), size);
    PassEffect(b, size);
    SchedNextSameRead(Park(Suspend(b, InRead(size)), KEYBOARD), k.current);
    SchedNextSameRead(Park(Suspend(Hand(b, |b.ring|), InRead(size)), KEYBOARD), k.current);
  }

  // ---------- Wakeups ----------

  // A waiting reader whose demand the ring could meet.
  ghost predicate Starved(k: Kernel, t: Tid)
    requires Shape(k)
  {
    t in k.queues[KEYBOARD] && k.tasks[t].toRead <= |k.ring|
  }

  ghost predicate NobodyStarved(k: Kernel)
    requires Shape(k)
  {
    forall t: Tid :: !Starved(k, t)
  }

  // A reader blocks although the ring holds what it still wants, because another one waits or
  // because its request is longer than the ring.
  ghost predicate Bypassed(k: Kernel, e: Event, size: int)
    requires Shape(k) && Reads(k, e, size)
  {
    var demand := if e.ERead? then size else k.tasks[k.current].toRead;
    0 < demand <= |k.ring| && !(k.queues[KEYBOARD] == [] && size <= |k.ring|)
  }

  // A key meets the demand of a waiting reader that is not the first.
  ghost predicate PassedOver(k: Kernel)
    requires Shape(k)
  {
    |k.ring| < RING_SIZE - 1
    && exists i :: 1 <= i < |k.queues[KEYBOARD]| && k.tasks[k.queues[KEYBOARD][i]].toRead == |k.ring| + 1
  }

  /** Exactly when a wakeup gets lost. */
  lemma LostWakeup(k: Kernel, e: Event)
    requires Inv(k) && Enabled(k, e) && NobodyStarved(k)
    ensures !NobodyStarved(Next(k, e)) <==>
              || (e.ERead? && Bypassed(k, e, e.size))
              || (e.EResume? && k.tasks[k.current].pending.InRead?
                  && Bypassed(k, e, k.tasks[k.current].pending.size))
              || (e.EKey? && PassedOver(k))
  {
    if e.EKey? {
      KeyWakeup(k, e.key);
    } else if e.ERead? {
      ReadWakeup(k, e, e.size);
    } else if e.EResume? && k.tasks[k.current].pending.InRead? {
      ReadWakeup(k, e, k.tasks[k.current].pending.size);
    } else {
      if e.EFork? || e.EClone? || e.EExit? || e.ESbrk? || e.ETick? {
        ProcessQuiet(k, e);
      } else {
        SemaphoreQuiet(k, e);
      }
      var n := Next(k, e);
      forall t: Tid
        ensures !Starved(n, t)
      {
        assert !Starved(k, t);
      }
    }
  }

  lemma ReadWakeup(k: Kernel, e: Event, size: int)
    requires Inv(k) && Enabled(k, e) && Reads(k, e, size) && NobodyStarved(k)
    ensures !NobodyStarved(Next(k, e)) <==> Bypassed(k, e, size)
  {
    hide QueuesOk, ReferencesOk, MemoryOk, ImagesOk, SemaphoresOk;
    var b := LoopStart(k, e, size);
    ReadStep(k, e, size);
    PassEffect(b, size);
    var n := Next(k, e);
    forall t: Tid | t in k.queues[KEYBOARD]
      ensures !Starved(n, t)
    {
      assert !Starved(k, t);
      assert t != k.current;
    }
    if Bypassed(k, e, size) {
      assert Starved(n, k.current);
    } else {
      forall t: Tid
        ensures !Starved(n, t)
      {
      }
    }
  }

  // The readers still waiting after a key: all of them, or all but the first.
  lemma KeyQueue(k: Kernel, key: Byte)
    requires Inv(k) && NobodyStarved(k)
    ensures Shape(Key(k, key))
    ensures var n, q := Key(k, key), k.queues[KEYBOARD];
            && n.ring == k.ring + Accepted(k, EKey(key))
            && (forall t :: t in q ==> n.tasks[t].toRead == k.tasks[t].toRead)
            && n.queues[KEYBOARD] ==
                 if q != [] && (k.tasks[q[0]].toRead == |k.ring| + 1 || |k.ring| == RING_SIZE - 1)
                 then q[1..] else q
  {
    var q := k.queues[KEYBOARD];
    if q != [] { assert !Starved(k, q[0]); }
  }

  lemma KeyWakeup(k: Kernel, key: Byte)
    requires Inv(k) && NobodyStarved(k)
    ensures Shape(Key(k, key))
    ensures !NobodyStarved(Key(k, key)) <==> PassedOver(k)
  {
    KeyQueue(k, key);
    var n := Key(k, key);
    var q := k.queues[KEYBOARD];
    if PassedOver(k) {
      var i :| 1 <= i < |q| && k.tasks[q[i]].toRead == |k.ring| + 1;
      assert q[i] in q[1..] by { assert q[1..][i - 1] == q[i]; }
      assert Starved(n, q[i]);
    } else {
      forall t: Tid | t in n.queues[KEYBOARD]
        ensures !Starved(n, t)
      {
        assert t in q && !Starved(k, t);
        var i :| 0 <= i < |q| && q[i] == t;
        if i == 0 { assert Once(k.queues); }
      }
    }
  }

  // ---------- A single reader ----------

  ghost predicate OnlyReader(k: Kernel, r: Tid)
    requires Shape(k)
  {
    forall t: Tid :: k.tasks[t].pending.InRead? ==> t == r && k.tasks[t].pending.size < RING_SIZE
  }

  // At most one read is under way, and it fits the ring.
  ghost predicate Solo(k: Kernel)
    requires Shape(k)
  {
    exists r: Tid :: OnlyReader(k, r)
  }

  ghost predicate SoloRun(k: Kernel, run: seq<Event>)
    requires Inv(k) && Legal(k, run)
    decreases |run|
  {
    Solo(k) && (run == [] || SoloRun(Next(k, run[0]), run[1..]))
  }

  lemma SoloNotBypassed(k: Kernel, e: Event, size: int)
    requires Inv(k) && Enabled(k, e) && Reads(k, e, size) && Solo(k) && Solo(Next(k, e))
    ensures !Bypassed(k, e, size)
  {
    hide QueuesOk, ReferencesOk, MemoryOk, ImagesOk, ReadsOk;
    var b := LoopStart(k, e, size);
    ReadStep(k, e, size);
    PassEffect(b, size);
    var n := Next(k, e);
    var q := k.queues[KEYBOARD];
    assert q != [] ==> q[0] in q;
  }

  /** With a single reader no wakeup is lost, and the key that completes its demand wakes it. */
  lemma SoloStep(k: Kernel, e: Event)
    requires Inv(k) && Enabled(k, e) && NobodyStarved(k) && Solo(k) && Solo(Next(k, e))
    ensures NobodyStarved(Next(k, e))
    ensures e.EKey? ==>
              forall t: Tid :: t in k.queues[KEYBOARD] && k.tasks[t].toRead == |k.ring| + 1 ==>
                Next(k, e).queues[READY] == k.queues[READY] + [t]
  {
    LostWakeup(k, e);
    if e.ERead? {
      SoloNotBypassed(k, e, e.size);
    } else if e.EResume? && k.tasks[k.current].pending.InRead? {
      SoloNotBypassed(k, e, k.tasks[k.current].pending.size);
    } else if e.EKey? {
      SoloKey(k, e.key);
    }
  }

  lemma SoloKey(k: Kernel, key: Byte)
    requires Inv(k) && NobodyStarved(k) && Solo(k)
    ensures !PassedOver(k)
    ensures forall t: Tid :: t in k.queues[KEYBOARD] && k.tasks[t].toRead == |k.ring| + 1 ==>
              Key(k, key).queues[READY] == k.queues[READY] + [t]
  {
    var q := k.queues[KEYBOARD];
    var r: Tid :| OnlyReader(k, r);
    forall i | 0 <= i < |q|
      ensures q[i] == r
    {
      assert q[i] in k.queues[KEYBOARD];
      assert k.tasks[q[i]].pending.InRead?;
    }
    assert forall i :: 1 <= i < |q| ==> k.queues[KEYBOARD][i] != k.queues[KEYBOARD][0];
  }

  /** Over every run with one reader at a time nobody is left waiting for keys that are there. */
  lemma {:induction false} SoloRunWakes(k: Kernel, run: seq<Event>)
    requires Inv(k) && Legal(k, run) && SoloRun(k, run) && NobodyStarved(k)
    ensures NobodyStarved(Run(k, run))
    decreases |run|
  {
    if run == [] {
    } else {
      SoloStep(k, run[0]);
      SoloRunWakes(Next(k, run[0]), run[1..]);
    }
  }
}
