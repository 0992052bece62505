/** Frames, heaps and address spaces over whole runs of the kernel. */
module SpaceRuns {
  import opened Params
  import opened Paging
  import opened AddressSpaces
  import opened Machine
  import opened TaskQueues
  import opened Invariants

  // ---------- Steps that leave memory alone ----------

  // Frames, tables and bytes are as before; CR3 may have moved.
  ghost predicate SameMemory(k: Kernel, n: Kernel) {
    && n.memory.phys == k.memory.phys
    && n.memory.tables == k.memory.tables
    && n.memory.bytes == k.memory.bytes
  }

  // Directories and program breaks are as before.
  ghost predicate SameBreaks(k: Kernel, n: Kernel)
    requires Shape(k) && Shape(n)
  {
    forall t: Tid :: n.tasks[t].dir == k.tasks[t].dir && n.tasks[t].programBreak == k.tasks[t].programBreak
  }

  ghost predicate Untouched(k: Kernel, n: Kernel)
    requires Shape(k) && Shape(n)
  {
    && SameMemory(k, n) && SameBreaks(k, n)
    && n.queues[FREE] == k.queues[FREE] && n.references == k.references && n.idle == k.idle && n.nextPid == k.nextPid
  }

  lemma SchedNextUntouched(k: Kernel)
    requires Shape(k)
    ensures Shape(SchedNext(k)) && Untouched(k, SchedNext(k))
  {
  }

  lemma {:induction false} WakeAllUntouched(k: Kernel, h: int)
    requires Shape(k) && KEYBOARD <= h < NR_QUEUES
    ensures Shape(WakeAll(k, h)) && Untouched(k, WakeAll(k, h))
    decreases |k.queues[h]|
  {
    if k.queues[h] == [] {
    } else {
      WakeAllUntouched(Wake(k, h), h);
    }
  }

  lemma BlockUntouched(b: Kernel, pending: Pending, h: int)
    requires Shape(b) && READY <= h < NR_QUEUES
    ensures var n := SchedNext(Park(Suspend(b, pending), h));
            Shape(n) && Untouched(b, n)
  {
    SchedNextUntouched(Park(Suspend(b, pending), h));
  }

  lemma ReadPassUntouched(b: Kernel, size: int)
    requires Shape(b)
    ensures Shape(ReadPass(b, size).k) && Untouched(b, ReadPass(b, size).k)
  {
    if b.tasks[b.current].toRead <= 0 {
    } else if b.queues[KEYBOARD] == [] && 0 <= size <= |b.ring| {
    } else if b.queues[KEYBOARD] == [] && |b.ring| == RING_SIZE - 1 {
      BlockUntouched(Hand(b, |b.ring|), InRead(size), KEYBOARD);
    } else {
      BlockUntouched(b, InRead(size), KEYBOARD);
    }
  }

  // Everything but fork, clone, exit and sbrk.
  predicate Spares(e: Event) { !e.EFork? && !e.EClone? && !e.EExit? && !e.ESbrk? }

  lemma SemaphoresUntouched(k: Kernel, e: Event)
    requires Inv(k) && Enabled(k, e)
    requires e.ESemInit? || e.ESemWait? || e.ESemSignal? || e.ESemDestroy?
    ensures Untouched(k, Next(k, e))
  {
    hide QueuesOk, StatesOk, BlockedOk, ReferencesOk, MemoryOk, ImagesOk, SemaphoresOk, ReadsOk;
    match e
    case ESemInit(_, _) =>
    case ESemWait(n) => if SemNumber(n) { BlockUntouched(k, InSemWait(n), SemQueue(n)); }
    case ESemSignal(_) =>
    case ESemDestroy(n) =>
      if SemNumber(n) {
        WakeAllUntouched(k.(semaphores := k.semaphores[n := k.semaphores[n].(owner := -1)]), SemQueue(n));
      }
  }

  lemma TickUntouched(k: Kernel)
    requires Inv(k)
    ensures Shape(ClockTick(k)) && Untouched(k, ClockTick(k))
  {
    SchedNextUntouched(Park(k.(remaining := k.remaining - 1), READY));
  }

  lemma ReadUntouched(k: Kernel, e: Event, size: int)
    requires Inv(k) && Enabled(k, e)
    requires e == ERead(size) || (e == EResume && k.tasks[k.current].pending == InRead(size))
    ensures Untouched(k, Next(k, e))
  {
    StepInv(k, e);
    ReadPassUntouched(if e.ERead? then BeginRead(k, size) else k, size);
  }

  lemma SparesMemory(k: Kernel, e: Event)
    requires Inv(k) && Enabled(k, e) && Spares(e)
    ensures Untouched(k, Next(k, e))
  {
    hide QueuesOk, StatesOk, BlockedOk, ReferencesOk, MemoryOk, ImagesOk, SemaphoresOk, ReadsOk;
    match e
    case ERead(size) => ReadUntouched(k, e, size);
    case EResume =>
      if k.tasks[k.current].pending.InRead? { ReadUntouched(k, e, k.tasks[k.current].pending.size); }
    case ETick => TickUntouched(k);
    case EKey(_) =>
    case _ => SemaphoresUntouched(k, e);
  }

  lemma SpawnMemory(k: Kernel, dir: nat)
    requires Shape(k) && k.queues[FREE] != [] && dir < NR_TASKS
    ensures var n := Spawn(k, dir).k;
            var child := k.queues[FREE][0];
            && Shape(n) && n.memory == k.memory
            && n.queues[FREE] == k.queues[FREE][1..]
            && n.tasks[child].dir == dir
            && n.tasks[child].programBreak == k.tasks[k.current].programBreak
            && n.references == k.references[dir := k.references[dir] + 1]
            && (forall t: Tid :: t != child ==> n.tasks[t] == k.tasks[t])
  {
  }

  // ---------- fork, exit and sbrk as kernel steps ----------

  // sys_fork has both a task structure and its frames.
  ghost predicate ForkSucceeds(k: Kernel)
    requires Shape(k)
  {
    k.queues[FREE] != [] && AllocN(k.memory.phys, NUM_PAG_DATA).Allocated?
  }

  ghost function ChildDirectory(k: Kernel): nat
    requires Shape(k)
  {
    FreeDirectory(k.references, 0)
  }

  // The kernel with the child's space built but the child not yet made.
  ghost function SpaceBuilt(k: Kernel): Kernel
    requires Inv(k) && Enabled(k, EFork) && ForkSucceeds(k)
  {
    ForkMemory(k);
    k.(memory := Forked(k.memory, k.tasks[k.current].dir, ChildDirectory(k)))
  }

  lemma ForkIs(k: Kernel)
    requires Inv(k) && Enabled(k, EFork) && ForkSucceeds(k)
    ensures ForkReady(k) && ChildDirectory(k) < NR_TASKS
    ensures CanFork(k.memory, k.tasks[k.current].dir, ChildDirectory(k))
    ensures Users(k, ChildDirectory(k)) == {} && k.references[ChildDirectory(k)] == 0
    ensures Inv(SpaceBuilt(k)) && Fork(k) == Spawn(SpaceBuilt(k), ChildDirectory(k))
  {
    DirectoryAvailable(k);
    ForkMemory(k);
    IsForkReady(k);
  }

  /** sys_fork is refused exactly when no task structure or fewer than twenty frames are free. */
  lemma ForkRefused(k: Kernel)
    requires Inv(k) && Enabled(k, EFork)
    ensures ForkReady(k)
    ensures ForkSucceeds(k) <==> k.queues[FREE] != [] && |FreeFrames(k.memory.phys)| >= NUM_PAG_DATA
    ensures !ForkSucceeds(k) ==> Fork(k) == Return(k, -ENOMEM)
  {
    IsForkReady(k);
    AllocExact(k.memory.phys, NUM_PAG_DATA);
  }

  /**
   The child is the first free task, in a directory no live task uses. Through its own table it
   sees the father's bytes at the call in every data page and the father's frames below them;
   the father's table and every byte of a frame in use are unchanged.
   */
  lemma ForkExact(k: Kernel)
    requires Inv(k) && Enabled(k, EFork) && ForkSucceeds(k)
    ensures var n := Next(k, EFork);
            var child := k.queues[FREE][0];
            var d, c := k.tasks[k.current].dir, n.tasks[child].dir;
            && Users(k, c) == {} && Users(n, c) == {child}
            && n.queues[READY] == k.queues[READY] + [child]
            && (forall p :: PAG_LOG_INIT_DATA <= p < HEAP_START ==>
                  && FrameAt(n.memory, c, p) < TOTAL_PAGES && FrameAt(k.memory, d, p) < TOTAL_PAGES
                  && n.memory.bytes[FrameAt(n.memory, c, p)] == k.memory.bytes[FrameAt(k.memory, d, p)])
            && (forall p :: 0 <= p < PAG_LOG_INIT_DATA ==>
                  FrameAt(n.memory, c, p) == FrameAt(k.memory, d, p))
            && (forall e :: 0 <= e < NR_TASKS && e != c ==> n.memory.tables[e] == k.memory.tables[e])
            && (forall f :: 0 <= f < TOTAL_PAGES && k.memory.phys[f] ==>
                  n.memory.bytes[f] == k.memory.bytes[f])
  {
    ForkIs(k);
    var c := ChildDirectory(k);
    ForkCopies(k.memory, k.tasks[k.current].dir, c);
    SpawnMemory(SpaceBuilt(k), c);
    ChildAlone(k);
  }

  lemma ChildAlone(k: Kernel)
    requires Inv(k) && Enabled(k, EFork) && ForkSucceeds(k)
    ensures Users(Next(k, EFork), ChildDirectory(k)) == {k.queues[FREE][0]}
  {
    ForkIs(k);
    var n, child, c := Next(k, EFork), k.queues[FREE][0], ChildDirectory(k);
    SpawnMemory(SpaceBuilt(k), c);
    OncePop(k.queues, FREE);
    assert child in k.queues[FREE];
    forall t: Tid | t in Users(n, c) && t != child
      ensures t in Users(k, c)
    {
    }
    assert child in Users(n, c);
  }

  /**
   sys_exit frees frames exactly when it reclaims and the last thread of the directory leaves; it
   then frees the twenty data frames and nothing else, and no surviving task loses a page or a byte.
   */
  lemma ExitExact(k: Kernel, reclaims: bool)
    requires Inv(k) && Enabled(k, EExit(reclaims))
    ensures var n := Exit(k, reclaims);
            var d := k.tasks[k.current].dir;
            var last := Users(k, d) == {k.current};
            && Shape(n) && n.memory.bytes == k.memory.bytes
            && (forall f :: 0 <= f < TOTAL_PAGES ==>
                  (n.memory.phys[f] <==>
                     k.memory.phys[f] && !(reclaims && last && f in DataFrames(k.memory.tables[d]))))
            && (forall t: Tid :: Live(k, t) && t != k.current ==>
                  n.memory.tables[n.tasks[t].dir] == k.memory.tables[k.tasks[t].dir])
  {
    hide Exclusive, Image, DataFrames;
    var d := k.tasks[k.current].dir;
    assert Live(k, k.current);
    assert k.current in Users(k, d);
    ReleaseExact(k.memory, d);
    LeavingMemory(k, reclaims);
    SchedNextUntouched(Leaving(k, reclaims));
    LastThread(k);
    forall t: Tid | Live(k, t) && k.tasks[t].dir == d
      ensures t in Users(k, d)
    {
    }
  }

  lemma LastThread(k: Kernel)
    requires Inv(k) && Live(k, k.current)
    ensures var d := k.tasks[k.current].dir;
            k.references[d] == 1 <==> Users(k, d) == {k.current}
  {
    var u := Users(k, k.tasks[k.current].dir);
    assert k.current in u;
    if |u| == 1 {
      assert |u - {k.current}| == 0;
      assert u == (u - {k.current}) + {k.current};
    }
  }

  /** The compiled kernel keeps the exit promise exactly when a thread of the directory stays. */
  lemma CompiledExit(k: Kernel)
    requires Inv(k) && Enabled(k, EExit(false))
    ensures Shape(Exit(k, false)) && Shape(Exit(k, true))
    ensures Exit(k, false).memory.phys == Exit(k, true).memory.phys
            <==> Users(k, k.tasks[k.current].dir) != {k.current}
  {
    ExitExact(k, false);
    ExitExact(k, true);
    assert Live(k, k.current);
    var d := k.tasks[k.current].dir;
    DataFramesInMemory(k.memory, d);
    var f := DataFrames(k.memory.tables[d])[0];
    assert Owns(k.memory, d, PAG_LOG_INIT_DATA);
    assert f in DataFrames(k.memory.tables[d]) && k.memory.phys[f];
    if Users(k, d) != {k.current} {
      assert Exit(k, false).memory.phys == Exit(k, true).memory.phys;
    }
  }

  lemma {:induction false} RunSpares(k: Kernel, run: seq<Event>)
    requires Inv(k) && Legal(k, run) && forall i :: 0 <= i < |run| ==> Spares(run[i])
    ensures Untouched(k, Run(k, run))
    decreases |run|
  {
    if run == [] {
    } else {
      SparesMemory(k, run[0]);
      RunSpares(Next(k, run[0]), run[1..]);
    }
  }

  // Directory d has a live user in every state of the run.
  ghost predicate StaysUsed(k: Kernel, run: seq<Event>, d: int)
    requires Inv(k) && Legal(k, run)
    decreases |run|
  {
    Users(k, d) != {} && (run == [] || StaysUsed(Next(k, run[0]), run[1..], d))
  }

  // The data entries of directory d are as before.
  ghost predicate SameData(k: Kernel, n: Kernel, d: nat)
    requires Shape(k) && Shape(n) && d < NR_TASKS
  {
    forall p :: PAG_LOG_INIT_DATA <= p < HEAP_START ==> n.memory.tables[d][p] == k.memory.tables[d][p]
  }

  lemma ExitKeepsData(k: Kernel, reclaims: bool, d: nat)
    requires Inv(k) && Enabled(k, EExit(reclaims)) && d < NR_TASKS
    requires Users(Next(k, EExit(reclaims)), d) != {}
    ensures SameData(k, Next(k, EExit(reclaims)), d)
  {
    hide StatesOk, SemaphoresOk, ReadsOk, BlockedOk, FreeUserPages;
    var n := Next(k, EExit(reclaims));
    LeavingMemory(k, reclaims);
    SchedNextUntouched(Leaving(k, reclaims));
    assert n.references[d] == |Users(n, d)|;
  }

  lemma SbrkKeepsData(k: Kernel, increment: int, d: nat)
    requires Inv(k) && Enabled(k, ESbrk(increment)) && d < NR_TASKS
    ensures SameData(k, Next(k, ESbrk(increment)), d)
  {
    hide StatesOk, SemaphoresOk, ReadsOk, QueuesOk, ReferencesOk, Grow;
    var pb := k.tasks[k.current].programBreak;
    var need := PagesNeeded(pb, Future(pb, increment));
    if increment != 0 && need > 0 { GrowExact(k.memory, need); }
  }

  lemma ForkKeepsData(k: Kernel, d: nat)
    requires Inv(k) && Enabled(k, EFork) && d < NR_TASKS && Users(k, d) != {}
    ensures SameData(k, Next(k, EFork), d)
  {
    hide StatesOk, SemaphoresOk, ReadsOk, QueuesOk, ReferencesOk, MemoryOk, Fork;
    ForkRefused(k);
    if ForkSucceeds(k) {
      ForkIs(k);
      ForkExact(k);
      SpawnMemory(SpaceBuilt(k), ChildDirectory(k));
    }
  }

  /** Nobody else's calls change the data pages of a directory that keeps a live user. */
  lemma StepKeepsData(k: Kernel, e: Event, d: nat)
    requires Inv(k) && Enabled(k, e) && d < NR_TASKS
    requires Users(k, d) != {} && Users(Next(k, e), d) != {}
    ensures SameData(k, Next(k, e), d)
  {
    hide StatesOk, SemaphoresOk, ReadsOk, QueuesOk, ReferencesOk, MemoryOk, Users;
    match e
    case EFork => ForkKeepsData(k, d);
    case EClone(_) => if k.queues[FREE] != [] { SpawnMemory(k, k.tasks[k.current].dir); }
    case EExit(reclaims) => ExitKeepsData(k, reclaims, d);
    case ESbrk(increment) => SbrkKeepsData(k, increment, d);
    case _ => SparesMemory(k, e);
  }

  lemma {:induction false} RunKeepsData(k: Kernel, run: seq<Event>, d: nat)
    requires Inv(k) && Legal(k, run) && d < NR_TASKS && StaysUsed(k, run, d)
    ensures SameData(k, Run(k, run), d)
    decreases |run|
  {
    hide StatesOk, SemaphoresOk, ReadsOk, QueuesOk, ReferencesOk, MemoryOk, Users, Outcome, Enabled;
    if run == [] {
    } else {
      StepKeepsData(k, run[0], d);
      RunKeepsData(Next(k, run[0]), run[1..], d);
    }
  }

  /**
   Whatever anybody does after a fork, as long as the child's directory keeps a live user: when its
   last thread exits, exactly the frames the fork took become free.
   */
  lemma ForkExitFrames(k: Kernel, run: seq<Event>, l: Kernel)
    requires Inv(k) && Enabled(k, EFork) && ForkSucceeds(k)
    requires Legal(Next(k, EFork), run) && StaysUsed(Next(k, EFork), run, ChildDirectory(k))
    requires l == Run(Next(k, EFork), run)
    requires Enabled(l, EExit(true)) && Users(l, ChildDirectory(k)) == {l.current}
    ensures Shape(Exit(l, true))
    ensures forall f :: 0 <= f < TOTAL_PAGES ==>
              (Exit(l, true).memory.phys[f] <==>
                 l.memory.phys[f] && f !in AllocN(k.memory.phys, NUM_PAG_DATA).frames)
  {
    hide StatesOk, SemaphoresOk, ReadsOk, QueuesOk, ReferencesOk, MemoryOk, Fork, Legal, Run, StaysUsed;
    var n, c := Next(k, EFork), ChildDirectory(k);
    ForkIs(k);
    ChildData(k);
    RunKeepsData(n, run, c);
    assert l.current in Users(l, c);
    assert DataFrames(l.memory.tables[c]) == AllocN(k.memory.phys, NUM_PAG_DATA).frames;
    ExitExact(l, true);
  }

  lemma ChildData(k: Kernel)
    requires Inv(k) && Enabled(k, EFork) && ForkSucceeds(k)
    ensures ChildDirectory(k) < NR_TASKS
    ensures DataFrames(Next(k, EFork).memory.tables[ChildDirectory(k)])
            == AllocN(k.memory.phys, NUM_PAG_DATA).frames
  {
    hide StatesOk, SemaphoresOk, ReadsOk, QueuesOk, ReferencesOk, Fork, Forked;
    ForkIs(k);
    ForkExtends(k.memory, k.tasks[k.current].dir, ChildDirectory(k));
    SpawnMemory(SpaceBuilt(k), ChildDirectory(k));
  }

  /**
   So if nothing but scheduling, semaphores and typing happens in between, the exit of the child
   restores the set of free frames from before the fork.
   */
  lemma ForkThenExit(k: Kernel, run: seq<Event>)
    requires Inv(k) && Enabled(k, EFork) && ForkSucceeds(k)
    requires Legal(Next(k, EFork), run) && forall i :: 0 <= i < |run| ==> Spares(run[i])
    requires Run(Next(k, EFork), run).current == k.queues[FREE][0]
    requires Enabled(Run(Next(k, EFork), run), EExit(true))
    ensures Exit(Run(Next(k, EFork), run), true).memory.phys == k.memory.phys
  {
    hide SpaceBuilt, SameMemory, StaysUsed;
    hide StatesOk, SemaphoresOk, ReadsOk, QueuesOk, ReferencesOk, MemoryOk;
    hide Fork, Forked, Legal, Run, Exit, Enabled, ForkSucceeds, Users, Outcome;
    var l := Run(Next(k, EFork), run);
    ExitExact(l, true);
    ChildLater(k, run);
    ChildNow(k);
    SparesUsed(Next(k, EFork), run, ChildDirectory(k));
    ForkExitFrames(k, run, l);
    GivenBack(k, l.memory.phys, Exit(l, true).memory.phys);
  }

  lemma GivenBack(k: Kernel, used: seq<bool>, after: seq<bool>)
    requires Inv(k) && Enabled(k, EFork) && ForkSucceeds(k)
    requires used == SpaceBuilt(k).memory.phys && |after| == TOTAL_PAGES
    requires forall f :: 0 <= f < TOTAL_PAGES ==>
               (after[f] <==> used[f] && f !in AllocN(k.memory.phys, NUM_PAG_DATA).frames)
    ensures after == k.memory.phys
  {
    hide StatesOk, SemaphoresOk, ReadsOk, QueuesOk, ReferencesOk, Fork, Forked;
    ForkIs(k);
    AllocTook(k.memory.phys, NUM_PAG_DATA);
    ForkSound(k.memory, k.tasks[k.current].dir, ChildDirectory(k));
  }

  lemma {:induction false} SparesUsed(k: Kernel, run: seq<Event>, d: int)
    requires Inv(k) && Legal(k, run) && Users(k, d) != {}
    requires forall i :: 0 <= i < |run| ==> Spares(run[i])
    ensures StaysUsed(k, run, d)
    decreases |run|
  {
    hide StatesOk, SemaphoresOk, ReadsOk, QueuesOk, ReferencesOk, MemoryOk, Outcome, Enabled;
    if run == [] {
    } else {
      SparesMemory(k, run[0]);
      UsersStay(k, Next(k, run[0]), d);
      SparesUsed(Next(k, run[0]), run[1..], d);
    }
  }

  // Until it exits the child stays alone in the directory the fork gave it.
  lemma ChildLater(k: Kernel, run: seq<Event>)
    requires Inv(k) && Enabled(k, EFork) && ForkSucceeds(k)
    requires Legal(Next(k, EFork), run) && forall i :: 0 <= i < |run| ==> Spares(run[i])
    ensures var later := Run(Next(k, EFork), run);
            && SameMemory(SpaceBuilt(k), later)
            && later.tasks[k.queues[FREE][0]].dir == ChildDirectory(k)
            && Users(later, ChildDirectory(k)) == {k.queues[FREE][0]}
  {
    var n := Next(k, EFork);
    ChildNow(k);
    RunSpares(n, run);
    UsersStay(n, Run(n, run), ChildDirectory(k));
  }

  lemma ChildNow(k: Kernel)
    requires Inv(k) && Enabled(k, EFork) && ForkSucceeds(k)
    ensures var n := Next(k, EFork);
            && SameMemory(SpaceBuilt(k), n)
            && n.tasks[k.queues[FREE][0]].dir == ChildDirectory(k)
            && Users(n, ChildDirectory(k)) == {k.queues[FREE][0]}
  {
    ForkIs(k);
    SpawnMemory(SpaceBuilt(k), ChildDirectory(k));
    ChildAlone(k);
  }

  lemma UsersStay(k: Kernel, n: Kernel, d: int)
    requires Shape(k) && Shape(n) && Untouched(k, n)
    ensures Users(n, d) == Users(k, d)
  {
  }

  // ---------- No frame is lost ----------

  // Every used user frame is a code frame or mapped once, and unused directories hold no data.
  ghost predicate Clean(k: Kernel)
    requires Shape(k)
  {
    && NoLeak(k.memory)
    && forall d :: 0 <= d < NR_TASKS && k.references[d] == 0 ==> DataClear(k.memory.tables[d])
  }

  // The last thread of a directory leaves the compiled kernel.
  ghost predicate Abandons(k: Kernel, e: Event)
    requires Shape(k)
  {
    e == EExit(false) && k.references[k.tasks[k.current].dir] == 1
  }

  lemma UntouchedClean(k: Kernel, n: Kernel)
    requires Shape(k) && Shape(n) && Untouched(k, n) && Clean(k)
    ensures Clean(n)
  {
    forall f | NUM_PAG_KERNEL <= f < TOTAL_PAGES && n.memory.phys[f] && !CodeFrame(f)
      ensures exists d, p :: Owns(n.memory, d, p) && FrameAt(n.memory, d, p) == f
    {
      var d, p :| Owns(k.memory, d, p) && FrameAt(k.memory, d, p) == f;
      assert Owns(n.memory, d, p) && FrameAt(n.memory, d, p) == f;
    }
  }

  lemma ForkClean(k: Kernel)
    requires Inv(k) && Enabled(k, EFork) && Clean(k)
    ensures Clean(Next(k, EFork))
  {
    hide QueuesOk, StatesOk, BlockedOk, ReferencesOk, MemoryOk, ImagesOk, SemaphoresOk, ReadsOk;
    IsForkReady(k);
    if ForkSucceeds(k) {
      ForkIs(k);
      var d, c := k.tasks[k.current].dir, ChildDirectory(k);
      ForkSound(k.memory, d, c);
      ForkExtends(k.memory, d, c);
      SpawnMemory(SpaceBuilt(k), c);
    }
  }

  lemma ExitClean(k: Kernel, reclaims: bool)
    requires Inv(k) && Enabled(k, EExit(reclaims)) && Clean(k)
    ensures Clean(Next(k, EExit(reclaims))) <==> !Abandons(k, EExit(reclaims))
  {
    hide Exclusive, Contiguous;
    var d := k.tasks[k.current].dir;
    var m, n := Leaving(k, reclaims), Next(k, EExit(reclaims));
    assert Live(k, k.current);
    LeavingMemory(k, reclaims);
    ReleaseExact(k.memory, d);
    SchedNextUntouched(m);
    if Abandons(k, EExit(reclaims)) {
      assert n.references[d] == 0 && n.memory.tables[d] == k.memory.tables[d];
      assert n.memory.tables[d][PAG_LOG_INIT_DATA] != ZERO;
    } else {
      assert Clean(m);
      UntouchedClean(m, n);
    }
  }

  lemma SbrkClean(k: Kernel, increment: int)
    requires Inv(k) && Enabled(k, ESbrk(increment)) && Clean(k)
    ensures Clean(Next(k, ESbrk(increment)))
  {
    hide Sound, Coherent, NoLeak, PhPage, Grow;
    hide QueuesOk, StatesOk, BlockedOk, ReferencesOk, ImagesOk, SemaphoresOk, ReadsOk, FreeFrames, HeapLength;
    var pb := k.tasks[k.current].programBreak;
    var need := PagesNeeded(pb, Future(pb, increment));
    if increment != 0 && need > 0 { GrowExact(k.memory, need); }
  }

  /** A step leaves data in a directory nobody uses exactly when it is the compiled exit of a last thread. */
  lemma StepClean(k: Kernel, e: Event)
    requires Inv(k) && Enabled(k, e) && Clean(k)
    ensures Clean(Next(k, e)) <==> !Abandons(k, e)
  {
    hide QueuesOk, StatesOk, BlockedOk, MemoryOk, ImagesOk, SemaphoresOk, ReadsOk;
    match e
    case EFork => ForkClean(k);
    case EClone(_) =>
      if k.queues[FREE] != [] { SpawnMemory(k, k.tasks[k.current].dir); }
    case EExit(reclaims) => ExitClean(k, reclaims);
    case ESbrk(increment) => SbrkClean(k, increment);
    case _ =>
      SparesMemory(k, e);
      UntouchedClean(k, Next(k, e));
  }

  ghost predicate NeverAbandons(k: Kernel, run: seq<Event>)
    requires Inv(k) && Legal(k, run)
    decreases |run|
  {
    run == [] || (!Abandons(k, run[0]) && NeverAbandons(Next(k, run[0]), run[1..]))
  }

  /**
   Over every run without such an exit no directory is left holding data, and the used user frames
   are exactly the code frames and those of the mapped data and heap pages, each mapped once.
   */
  lemma {:induction false} RunClean(k: Kernel, run: seq<Event>)
    requires Inv(k) && Legal(k, run) && Clean(k) && NeverAbandons(k, run)
    ensures Clean(Run(k, run))
    ensures var m := Run(k, run).memory;
            forall f :: NUM_PAG_KERNEL <= f < TOTAL_PAGES ==>
              (m.phys[f] <==> CodeFrame(f) || exists d, p :: Owns(m, d, p) && FrameAt(m, d, p) == f)
    ensures var m := Run(k, run).memory;
            |UsedFrames(m)| == NUM_PAG_CODE + |Entries(m)|
    decreases |run|
  {
    if run == [] {
    } else {
      StepClean(k, run[0]);
      RunClean(Next(k, run[0]), run[1..]);
    }
    FrameCount(Run(k, run).memory);
  }

  // ---------- The heap covers the break ----------

  // The break of t is an address a signed int can hold, and every byte between heap base and
  // break lies in a mapped page.
  ghost predicate Covered(k: Kernel, t: Tid)
    requires Shape(k)
  {
    var pb := k.tasks[t].programBreak;
    && pb < 0x8000_0000
    && PhPage(pb - 1) < HEAP_START + HeapLength(k.memory.tables[k.tasks[t].dir])
  }

  // t moves its break outside the addresses a signed int can hold.
  ghost predicate Overshoots(k: Kernel, e: Event, t: Tid)
    requires Shape(k)
  {
    e.ESbrk? && k.current == t && !(0 <= k.tasks[t].programBreak + e.increment < 0x8000_0000)
  }

  /**
   sys_sbrk returns the old break or fails, and fails exactly when too few frames are free for the
   pages it needs; then nothing has changed.
   */
  lemma SbrkExact(k: Kernel, increment: int)
    requires Inv(k) && Enabled(k, ESbrk(increment))
    ensures var s := Sbrk(k, increment);
            var pb := k.tasks[k.current].programBreak;
            var d := k.tasks[k.current].dir;
            var need := PagesNeeded(pb, Future(pb, increment));
            var fails := increment != 0 && need > 0 && |FreeFrames(k.memory.phys)| < need;
            && (fails ==> s == Return(k, -ENOMEM))
            && (!fails ==>
                  && s.reply == Returns(pb)
                  && s.k.tasks[k.current].programBreak == Future(pb, increment)
                  && (forall t: Tid :: t != k.current ==> s.k.tasks[t] == k.tasks[t])
                  && HeapLength(s.k.memory.tables[d]) ==
                       HeapLength(k.memory.tables[d]) + if increment != 0 && need > 0 then need else 0)
            && (forall e :: 0 <= e < NR_TASKS && e != d ==> s.k.memory.tables[e] == k.memory.tables[e])
  {
    var pb := k.tasks[k.current].programBreak;
    var need := PagesNeeded(pb, Future(pb, increment));
    if increment != 0 && need > 0 { GrowExact(k.memory, need); }
  }

  /**
   In plain addresses, where both breaks fit a signed int: the break moves by the increment, and the
   heap grows by the pages from that of the last byte in use to that of the new break; if there are
   not that many free frames, -12 and no change. A call that goes back or stays in the page of the
   last byte maps nothing and never fails.
   */
  lemma SbrkPages(k: Kernel, increment: int)
    requires Inv(k) && Enabled(k, ESbrk(increment))
    requires k.tasks[k.current].programBreak < 0x8000_0000
    requires 0 <= k.tasks[k.current].programBreak + increment < 0x8000_0000
    ensures var s := Outcome(k, ESbrk(increment));
            var task := k.tasks[k.current];
            var last, next := (task.programBreak - 1) / 4096, (task.programBreak + increment) / 4096;
            var pages := if increment == 0 || next <= last then 0 else next - last;
            if |FreeFrames(k.memory.phys)| < pages then s == Step(k, Returns(-12), [])
            else
              && s.reply == Returns(task.programBreak) && s.got == []
              && s.k == k.(memory := s.k.memory,
                           tasks := k.tasks[k.current := task.(programBreak := task.programBreak + increment)])
              && HeapLength(s.k.memory.tables[task.dir]) == HeapLength(k.memory.tables[task.dir]) + pages
              && (pages == 0 ==> s.k.memory == k.memory)
    ensures var task := k.tasks[k.current];
            increment < 0 || (task.programBreak + increment) / 4096 == (task.programBreak - 1) / 4096 ==>
              Outcome(k, ESbrk(increment)) ==
                Return(k.(tasks := k.tasks[k.current := task.(programBreak := task.programBreak + increment)]),
                       task.programBreak)
  {
    hide QueuesOk, StatesOk, BlockedOk, ReferencesOk, MemoryOk, ImagesOk, SemaphoresOk, ReadsOk;
    hide HeapLength, FreeFrames, Grow, PhPage, Word;
    var pb := k.tasks[k.current].programBreak;
    PageOrder(pb);
    PageOrder(pb + increment);
    SbrkExact(k, increment);
  }

  // a and v are the same 32-bit address, and v is it as a signed int.
  predicate SignedAddress(a: int, v: int) {
    -0x8000_0000 <= v < 0x8000_0000 && (v - a) % 0x1_0000_0000 == 0
  }

  lemma PhPageSigned(a: int, v: int)
    requires SignedAddress(a, v)
    ensures PhPage(a) == v / PAGE_SIZE
    ensures (v - Word(a)) % 0x1_0000_0000 == 0
  {
    var q := (v - a) / 0x1_0000_0000;
    assert v == a + q * 0x1_0000_0000;
    assert v % 0x1_0000_0000 == a % 0x1_0000_0000;
    assert Word(v) == if v < 0 then v + 0x1_0000_0000 else v;
  }

  /**
   And for any break at all, wrapped or not: sbrk maps the pages from that of the last byte in use to
   that of the new break, both addresses read as signed ints, and puts the break where it wraps to.
   */
  lemma SbrkSigned(k: Kernel, increment: int, last: int, next: int)
    requires Inv(k) && Enabled(k, ESbrk(increment))
    requires SignedAddress(k.tasks[k.current].programBreak - 1, last)
    requires SignedAddress(k.tasks[k.current].programBreak + increment, next)
    ensures var s := Outcome(k, ESbrk(increment));
            var task := k.tasks[k.current];
            var pages := if increment == 0 || next / 4096 <= last / 4096 then 0 else next / 4096 - last / 4096;
            if |FreeFrames(k.memory.phys)| < pages then s == Step(k, Returns(-12), [])
            else
              && s.reply == Returns(task.programBreak) && s.got == []
              && SignedAddress(s.k.tasks[k.current].programBreak, next)
              && HeapLength(s.k.memory.tables[task.dir]) == HeapLength(k.memory.tables[task.dir]) + pages
              && (pages == 0 ==> s.k.memory == k.memory)
  {
    hide QueuesOk, StatesOk, BlockedOk, ReferencesOk, MemoryOk, ImagesOk, SemaphoresOk, ReadsOk;
    hide HeapLength, FreeFrames, Grow, PhPage, Word;
    var pb := k.tasks[k.current].programBreak;
    PhPageSigned(pb - 1, last);
    PhPageSigned(pb + increment, next);
    PhPageSigned(Word(pb + increment), next);
    SbrkExact(k, increment);
  }

  // The task made by this step, if any.
  ghost predicate Made(k: Kernel, e: Event, t: Tid)
    requires Shape(k)
  {
    (e.EFork? || e.EClone?) && k.queues[FREE] != [] && k.queues[FREE][0] == t
  }

  // Except for sbrk every step leaves every heap as long as it was, and every task not made by it
  // keeps directory and break.
  ghost predicate HeapsStay(k: Kernel, n: Kernel, e: Event)
    requires Shape(k) && Shape(n)
  {
    && (forall d :: 0 <= d < NR_TASKS ==>
          HeapLength(n.memory.tables[d]) == HeapLength(k.memory.tables[d]))
    && (forall t: Tid :: !Made(k, e, t) ==>
          n.tasks[t].dir == k.tasks[t].dir && n.tasks[t].programBreak == k.tasks[t].programBreak)
  }

  lemma ForkHeaps(k: Kernel)
    requires Inv(k) && Enabled(k, EFork)
    ensures HeapsStay(k, Next(k, EFork), EFork)
  {
    hide ReferencesOk, SemaphoresOk, ReadsOk, MemoryOk, StatesOk, QueuesOk, CanFork, Forked, ForkReady, Fork;
    ForkRefused(k);
    if ForkSucceeds(k) {
      ForkIs(k);
      var d, c := k.tasks[k.current].dir, ChildDirectory(k);
      ForkHeapLengths(k);
      SpawnMemory(SpaceBuilt(k), c);
    }
  }

  lemma ForkHeapLengths(k: Kernel)
    requires Inv(k) && Enabled(k, EFork) && ForkSucceeds(k)
    ensures Shaped(SpaceBuilt(k).memory)
    ensures forall d :: 0 <= d < NR_TASKS ==>
              HeapLength(SpaceBuilt(k).memory.tables[d]) == HeapLength(k.memory.tables[d])
  {
    hide ReferencesOk, SemaphoresOk, ReadsOk, StatesOk, QueuesOk, Forked, ForkReady, Fork;
    ForkIs(k);
    ForkExtends(k.memory, k.tasks[k.current].dir, ChildDirectory(k));
  }

  lemma ExitHeaps(k: Kernel, reclaims: bool)
    requires Inv(k) && Enabled(k, EExit(reclaims))
    ensures HeapsStay(k, Next(k, EExit(reclaims)), EExit(reclaims))
  {
    hide ReferencesOk, SemaphoresOk, ReadsOk, MemoryOk, StatesOk, QueuesOk, FreeUserPages;
    LeavingMemory(k, reclaims);
    LeavingHeaps(k, reclaims);
    SchedNextUntouched(Leaving(k, reclaims));
  }

  lemma LeavingHeaps(k: Kernel, reclaims: bool)
    requires Inv(k) && Enabled(k, EExit(reclaims))
    ensures Shape(Leaving(k, reclaims))
    ensures forall d :: 0 <= d < NR_TASKS ==>
              HeapLength(Leaving(k, reclaims).memory.tables[d]) == HeapLength(k.memory.tables[d])
  {
    hide ReferencesOk, SemaphoresOk, ReadsOk, StatesOk;
    LeavingMemory(k, reclaims);
    assert Live(k, k.current);
    ReleaseExact(k.memory, k.tasks[k.current].dir);
  }

  lemma StepHeaps(k: Kernel, e: Event)
    requires Inv(k) && Enabled(k, e) && !e.ESbrk?
    ensures HeapsStay(k, Next(k, e), e)
  {
    match e
    case EFork => ForkHeaps(k);
    case EClone(_) => if k.queues[FREE] != [] { SpawnMemory(k, k.tasks[k.current].dir); }
    case EExit(reclaims) => ExitHeaps(k, reclaims);
    case _ => SparesMemory(k, e);
  }

  // Every byte between heap base and break lies in a mapped page.
  ghost predicate BytesMapped(k: Kernel, t: Tid)
    requires Shape(k)
  {
    forall a :: HEAP_START * PAGE_SIZE <= a < k.tasks[t].programBreak ==>
      a / PAGE_SIZE < TOTAL_PAGES && k.memory.tables[k.tasks[t].dir][a / PAGE_SIZE] != ZERO
  }

  /** Covered says just that. When it fails, the page after the heap is below the break and unmapped. */
  lemma CoveredBytes(k: Kernel, t: Tid)
    requires Inv(k)
    ensures Covered(k, t) <==> BytesMapped(k, t)
    ensures !Covered(k, t) ==>
              var top := HeapTop(k.memory.tables[k.tasks[t].dir], HEAP_START);
              && top * PAGE_SIZE < k.tasks[t].programBreak
              && top < TOTAL_PAGES && k.memory.tables[k.tasks[t].dir][top] == ZERO
  {
    hide StatesOk, SemaphoresOk, ReadsOk, QueuesOk, ReferencesOk, ImagesOk, Exclusive;
    var pb, table := k.tasks[t].programBreak, k.memory.tables[k.tasks[t].dir];
    var top := HeapTop(table, HEAP_START);
    ScratchPageExists(k.memory, k.tasks[t].dir);
    if pb < 0x8000_0000 { PageOrder(pb); }
    if Covered(k, t) {
      forall a | HEAP_START * PAGE_SIZE <= a < pb
        ensures HEAP_START <= a / PAGE_SIZE < top
      {
        assert a / PAGE_SIZE <= (pb - 1) / PAGE_SIZE;
      }
    } else {
      assert top * PAGE_SIZE / PAGE_SIZE == top;
    }
  }

  /**
   A step of anybody uncovers the break of a live task exactly when that task moves it out of the
   addresses a signed int can hold; sys_sbrk lets it.
   */
  lemma StepCovered(k: Kernel, e: Event, t: Tid)
    requires Inv(k) && Enabled(k, e) && Live(k, t) && Covered(k, t)
    ensures Covered(Next(k, e), t) <==> !Overshoots(k, e, t)
  {
    hide QueuesOk, StatesOk, BlockedOk, ReferencesOk, MemoryOk, ImagesOk, SemaphoresOk, ReadsOk;
    if e.ESbrk? {
      SbrkCovered(k, e.increment, t);
    } else {
      if k.queues[FREE] != [] { assert k.queues[FREE][0] in k.queues[FREE]; }
      StepHeaps(k, e);
    }
  }

  lemma SbrkCovered(k: Kernel, increment: int, t: Tid)
    requires Inv(k) && Enabled(k, ESbrk(increment)) && Covered(k, t)
    ensures Covered(Next(k, ESbrk(increment)), t) <==> !Overshoots(k, ESbrk(increment), t)
  {
    hide QueuesOk, StatesOk, BlockedOk, ReferencesOk, MemoryOk, ImagesOk, SemaphoresOk, ReadsOk;
    hide Outcome, Covered, HeapLength;
    if t != k.current {
      SbrkCoversOthers(k, increment, t);
    } else if Overshoots(k, ESbrk(increment), t) {
      SbrkUncovers(k, increment);
    } else {
      SbrkCoversOwn(k, increment);
    }
  }

  lemma SbrkCoversOthers(k: Kernel, increment: int, t: Tid)
    requires Inv(k) && Enabled(k, ESbrk(increment)) && Covered(k, t) && t != k.current
    ensures Covered(Next(k, ESbrk(increment)), t)
  {
    hide QueuesOk, StatesOk, BlockedOk, ReferencesOk, MemoryOk, ImagesOk, SemaphoresOk, ReadsOk;
    hide HeapLength, FreeFrames, PagesNeeded, Future, Sbrk;
    SbrkExact(k, increment);
  }

  lemma SbrkUncovers(k: Kernel, increment: int)
    requires Inv(k) && Enabled(k, ESbrk(increment)) && Covered(k, k.current)
    requires Overshoots(k, ESbrk(increment), k.current)
    ensures !Covered(Next(k, ESbrk(increment)), k.current)
  {
    hide QueuesOk, StatesOk, BlockedOk, ReferencesOk, MemoryOk, ImagesOk, SemaphoresOk, ReadsOk;
    hide HeapLength, Sbrk;
    SbrkOvershoots(k, increment);
  }

  lemma SbrkCoversOwn(k: Kernel, increment: int)
    requires Inv(k) && Enabled(k, ESbrk(increment)) && Covered(k, k.current)
    requires !Overshoots(k, ESbrk(increment), k.current)
    ensures Covered(Next(k, ESbrk(increment)), k.current)
  {
    hide QueuesOk, StatesOk, BlockedOk, ReferencesOk, MemoryOk, ImagesOk, SemaphoresOk, ReadsOk;
    hide HeapLength, FreeFrames, Outcome;
    SbrkPages(k, increment);
    PageOrder(k.tasks[k.current].programBreak);
    PageOrder(k.tasks[k.current].programBreak + increment);
  }

  /**
   Such a call gets the old break as if it had succeeded: the page number of the new one comes out
   negative, so no page is asked for.
   */
  lemma SbrkOvershoots(k: Kernel, increment: int)
    requires Inv(k) && Enabled(k, ESbrk(increment))
    requires k.tasks[k.current].programBreak < 0x8000_0000
    requires Overshoots(k, ESbrk(increment), k.current)
    ensures var pb := k.tasks[k.current].programBreak;
            Sbrk(k, increment) == Return(SetBreak(k, Word(pb + increment)), pb)
    ensures Word(k.tasks[k.current].programBreak + increment) >= 0x8000_0000
  {
    hide QueuesOk, StatesOk, BlockedOk, ReferencesOk, MemoryOk, ImagesOk, SemaphoresOk, ReadsOk, Grow;
    var pb := k.tasks[k.current].programBreak;
    var sum := pb + increment;
    assert Word(sum) == if sum < 0 then sum + 0x1_0000_0000 else sum;
    assert PhPage(Word(sum)) < 0;
    PageOrder(pb);
  }

  // Inside the signed range PhPage is the page number, and the break's page bounds its last byte's.
  lemma PageOrder(a: int)
    requires 0 <= a < 0x8000_0000
    ensures Word(a) == a && PhPage(a) == a / PAGE_SIZE
    ensures PhPage(a - 1) == (a - 1) / PAGE_SIZE <= PhPage(a)
  {
    if a == 0 {
      assert Word(a - 1) == 0xFFFF_FFFF;
      assert (0xFFFF_FFFF - 0x1_0000_0000) / PAGE_SIZE == -1;
    }
  }

  ghost predicate StaysInRange(k: Kernel, run: seq<Event>, t: Tid)
    requires Inv(k) && Legal(k, run)
    decreases |run|
  {
    run == [] || (Live(k, t) && !Overshoots(k, run[0], t) && StaysInRange(Next(k, run[0]), run[1..], t))
  }

  /** From a covered break on, every heap byte below the break of a live task can be read and written. */
  lemma {:induction false} RunCovered(k: Kernel, run: seq<Event>, t: Tid, a: int)
    requires Inv(k) && Legal(k, run) && Covered(k, t) && StaysInRange(k, run, t)
    requires HEAP_START * PAGE_SIZE <= a < Run(k, run).tasks[t].programBreak
    ensures Covered(Run(k, run), t) && a / PAGE_SIZE < TOTAL_PAGES
    ensures var n := Run(k, run);
            var e := n.memory.tables[n.tasks[t].dir][a / PAGE_SIZE];
            e.present && e.user && e.rw
    decreases |run|
  {
    if run == [] {
      CoveredBytes(k, t);
      assert Owns(k.memory, k.tasks[t].dir, a / PAGE_SIZE);
    } else {
      StepCovered(k, run[0], t);
      RunCovered(Next(k, run[0]), run[1..], t, a);
    }
  }

  /**
   A forked child inherits the father's break but not its heap: its break is covered exactly when
   the directory it was given still maps that many heap pages.
   */
  lemma ChildCovered(k: Kernel)
    requires Inv(k) && Enabled(k, EFork) && ForkSucceeds(k) && Covered(k, k.current)
    ensures ChildDirectory(k) < NR_TASKS
    ensures Covered(Next(k, EFork), k.queues[FREE][0]) <==>
              PhPage(k.tasks[k.current].programBreak - 1)
              < HEAP_START + HeapLength(k.memory.tables[ChildDirectory(k)])
  {
    ForkIs(k);
    ForkHeaps(k);
    SpawnMemory(SpaceBuilt(k), ChildDirectory(k));
  }

  // ---------- Translations ----------

  // Bytes of one directory: TOTAL_PAGES entries of four bytes.
  const DIRECTORY_SIZE := 4096

  // &dir_pages[d] in 32-bit address arithmetic, for the address of the array.
  function DirAddress(base: int, d: nat): int { Word(base + d * DIRECTORY_SIZE) }

  // get_DIR_pos
  function DirPos(base: int, dir: int): int { Word(dir - base) / DIRECTORY_SIZE }

  /** get_DIR_pos finds the directory an address came from, wherever the array lies. */
  lemma DirPosInverts(base: int, d: nat)
    requires 0 <= base < 0x1_0000_0000 && d < NR_TASKS
    ensures DirPos(base, DirAddress(base, d)) == d
  {
    var sum := base + d * DIRECTORY_SIZE;
    if sum < 0x1_0000_0000 {
      assert DirAddress(base, d) == sum;
    } else {
      assert DirAddress(base, d) == sum - 0x1_0000_0000;
      assert Word(d * DIRECTORY_SIZE - 0x1_0000_0000) == d * DIRECTORY_SIZE;
    }
  }

  /** So comparing positions, as task_switch does, is comparing directories. */
  lemma DirPosDistinguishes(base: int, d: nat, e: nat)
    requires 0 <= base < 0x1_0000_0000 && d < NR_TASKS && e < NR_TASKS
    ensures DirPos(base, DirAddress(base, d)) == DirPos(base, DirAddress(base, e)) <==> d == e
  {
    DirPosInverts(base, d);
    DirPosInverts(base, e);
  }

  /** Over every run each live task but idle has all its code and data pages, for user code. */
  lemma RunImages(k: Kernel, run: seq<Event>, t: Tid, p: int)
    requires Inv(k) && Legal(k, run) && PAG_LOG_INIT_CODE <= p < HEAP_START
    requires Live(Run(k, run), t) && t != Run(k, run).idle
    ensures var n := Run(k, run);
            var e := n.memory.tables[n.tasks[t].dir][p];
            && e.present && e.user
            && (if p < PAG_LOG_INIT_DATA then e.frame == 256 + 2 * (p - 256)
                else e.rw && e.frame >= 272 && n.memory.phys[e.frame])
  {
    hide Legal, Run, QueuesOk, StatesOk, ReferencesOk, SemaphoresOk, ReadsOk;
    var n := Run(k, run);
    var table := n.memory.tables[n.tasks[t].dir];
    assert Image(table);
    if p >= PAG_LOG_INIT_DATA {
      var f := FrameAt(n.memory, n.tasks[t].dir, p);
      assert Owns(n.memory, n.tasks[t].dir, p);
      assert StrideFrame(f) && !CodeFrame(f);
    }
  }

  /** In every reachable state the processor translates pages as the current task's table does. */
  lemma NoStaleTranslation(k: Kernel, run: seq<Event>, p: nat, f: nat)
    requires Inv(k) && Legal(k, run) && p < TOTAL_PAGES
    ensures var n := Run(k, run);
            var d := n.tasks[n.current].dir;
            && n.memory.cr3 == d
            && ((p, f) in n.memory.tlb ==>
                  n.memory.tables[d][p].present && FrameAt(n.memory, d, p) == f)
  {
  }
}
